/** Whole runs of the process table: any interleaving of start, fork, exit, stop and waitpid, and of threads
    that come and go. */
module ProcessRuns {
  import opened FiniteSets
  import opened Options
  import opened ProcessTable
  import opened ProcessManager

  datatype Event =
    | Start(pid: nat)
    | Fork(p: nat, pid: nat)
    | Exit(p: nat, status: int)
    | Stop(p: nat)
    | Wait(p: nat, t: nat, target: int, nohang: bool, r: Outcome)
    | Resume(p: nat, t: nat, interrupted: bool, r: Outcome)
    | Disturb(p: nat, t: nat)
    | NewThread(p: nat, t: nat)
    | EndThread(p: nat, t: nat, detached: bool)
    | JoinThread(p: nat, t: nat)
    | DetachThread(p: nat, t: nat)

  predicate Alive(s: State, p: nat) {
    p in s.table && !s.table[p].zombie
  }

  /** Some thread of p can be the one that makes a call. */
  ghost predicate CanRun(s: State, p: nat) {
    exists t :: HasThread(s, p, t) && !s.table[p].threads[t].Asleep? && !s.table[p].threads[t].Ended()
  }

  predicate FreePid(s: State, pid: nat) {
    1 < pid <= MAX_PID && pid !in s.table
  }

  predicate HasThread(s: State, p: nat, t: nat) {
    Alive(s, p) && t in s.table[p].threads
  }

  /** What one call of a DceManager method may do; each clause is the contract of that method. */
  ghost predicate Step(s: State, e: Event, s': State) {
    match e
    case Start(pid) => FreePid(s, pid) && s' == Started(s, pid)
    case Fork(p, pid) => CanRun(s, p) && FreePid(s, pid) && s' == Forked(s, p, pid)
    case Exit(p, status) => CanRun(s, p) && s' == s.(table := Deleted(SetExit(s.table, p, status), p))
    case Stop(p) => p in s.table && s' == s.(table := Deleted(s.table, p))
    case Wait(p, t, target, nohang, r) => HasThread(s, p, t) && s.table[p].threads[t] == Outside && Waited(s, p, t, target, nohang, r, s')
    case Resume(p, t, interrupted, r) =>
      && HasThread(s, p, t) && s.table[p].threads[t].Woken?
      && var s1 := SetThread(s, p, t, Outside);
      if interrupted then s' == s1 else Waited(s1, p, t, s.table[p].threads[t].target, false, r, s')
    case Disturb(p, t) => HasThread(s, p, t) && s.table[p].threads[t].Asleep? && s' == SetThread(s, p, t, Woken(s.table[p].threads[t].target))
    case NewThread(p, t) => CanRun(s, p) && t !in s.table[p].threads && s' == SetThread(s, p, t, Outside)
    case EndThread(p, t, detached) => HasThread(s, p, t) && s.table[p].threads[t] == Outside && s' == ThreadEnded(s, p, t, detached)
    case JoinThread(p, t) => CanRun(s, p) && HasThread(s, p, t) && s.table[p].threads[t] == Finished && s' == WithoutThread(s, p, t)
    case DetachThread(p, t) => HasThread(s, p, t) && s.table[p].threads[t] == Finished && s' == SetThread(s, p, t, Abandoned)
  }

  ghost predicate Run(ss: seq<State>, es: seq<Event>) {
    && |ss| == |es| + 1 && ss[0] == State(map[], 0, [])
    && forall i :: 0 <= i < |es| ==> Step(ss[i], es[i], ss[i + 1])
  }

  lemma WaitedKeeps(s: State, p: nat, t: nat, target: int, nohang: bool, r: Outcome, s': State)
    requires Inv(s) && Alive(s, p) && Waited(s, p, t, target, nohang, r, s')
    ensures Inv(s')
  {
    hide Inv;
    match r
    case Collected(q, status) => ReapedKeeps(s, p, target, q);
    case Sleeping =>
      forall q | Matches(s.table, p, target, q) ensures !s.table[q].zombie {
        assert !EndedMatch(s.table, p, target, q);
      }
      SetThreadKeeps(s, p, t, Asleep(target));
    case _ =>
  }

  lemma StepKeeps(s: State, e: Event, s': State)
    requires Inv(s) && Step(s, e, s')
    ensures Inv(s')
  {
    hide Inv, Waited, Deleted;
    match e
    case Start(pid) => StartedKeeps(s, pid);
    case Fork(p, pid) => ForkedKeeps(s, p, pid);
    case Exit(p, status) =>
      SetExitKeeps(s, p, status);
      DeletedKeeps(s.(table := SetExit(s.table, p, status)), p);
    case Stop(p) => DeletedKeeps(s, p);
    case Wait(p, t, target, nohang, r) => WaitedKeeps(s, p, t, target, nohang, r, s');
    case Resume(p, t, interrupted, r) =>
      SetThreadKeeps(s, p, t, Outside);
      if !interrupted {
        WaitedKeeps(SetThread(s, p, t, Outside), p, t, s.table[p].threads[t].target, false, r, s');
      }
    case Disturb(p, t) => SetThreadKeeps(s, p, t, Woken(s.table[p].threads[t].target));
    case NewThread(p, t) => SetThreadKeeps(s, p, t, Outside);
    case EndThread(p, t, detached) => ThreadEndedKeeps(s, p, t, detached);
    case JoinThread(p, t) => WithoutThreadKeeps(s, p, t);
    case DetachThread(p, t) => SetThreadKeeps(s, p, t, Abandoned);
  }

  /** Families, zombies, waiters and serials are in order in every state of every run. */
  lemma {:induction false} RunKeeps(ss: seq<State>, es: seq<Event>, i: nat)
    requires Run(ss, es) && i < |ss|
    ensures Inv(ss[i])
  {
    hide Step, Inv;
    if i == 0 {
      NobodyYet();
    } else {
      RunKeeps(ss, es, i - 1);
      StepKeeps(ss[i - 1], es[i - 1], ss[i]);
    }
  }

  lemma NobodyYet()
    ensures Inv(State(map[], 0, []))
  {
  }

  /** No wake-up is lost: a thread asleep in waitpid has a matching child, and all of those are running. */
  lemma SleepersHaveRunningChildren(ss: seq<State>, es: seq<Event>, i: nat, p: nat, t: nat)
    requires Run(ss, es) && i < |ss| && HasThread(ss[i], p, t) && ss[i].table[p].threads[t].Asleep?
    ensures WorthWaiting(ss[i].table, p, ss[i].table[p].threads[t].target)
  {
    RunKeeps(ss, es, i);
  }

  /** The death of a matching child wakes the sleeper, and leaves the child to be collected. */
  lemma DeathWakes(ss: seq<State>, es: seq<Event>, i: nat, p: nat, t: nat, q: nat)
    requires Run(ss, es) && i < |ss| && HasThread(ss[i], p, t) && ss[i].table[p].threads[t].Asleep?
    requires Matches(ss[i].table, p, ss[i].table[p].threads[t].target, q)
    ensures var table := Deleted(ss[i].table, q); var target := ss[i].table[p].threads[t].target;
            && p in table && t in table[p].threads && table[p].threads[t] == Woken(target)
            && EndedMatch(table, p, target, q)
  {
    RunKeeps(ss, es, i);
    var table := ss[i].table;
    ChildFacts(table, p, q);
    NoLoop(table, q);
    FatherFacts(ss[i], q);
  }

  /** Everything known of the process with serial x once it has ended, as p, with exit value v. */
  ghost predicate Ended(s: State, p: nat, x: nat, v: int) {
    && (forall q :: q in s.table && s.table[q].serial == x ==> q == p && s.table[q].zombie && s.table[q].exitValue == v)
    && (forall k :: 0 <= k < |s.reaped| && s.reaped[k].serial == x ==> s.reaped[k].value == v)
    && x < s.born
  }

  lemma WaitedEnded(s: State, p: nat, t: nat, target: int, nohang: bool, r: Outcome, s': State, z: nat, x: nat, v: int)
    requires Ended(s, z, x, v) && Alive(s, p) && Waited(s, p, t, target, nohang, r, s')
    ensures Ended(s', z, x, v)
  {
    hide AnyMatch, AnyEnded;
  }

  lemma DeletedEnded(s: State, p: nat, z: nat, x: nat, v: int)
    requires Ended(s, z, x, v) && p in s.table
    ensures Ended(s.(table := Deleted(s.table, p)), z, x, v)
  {
    hide WakeAll;
    var table := Deleted(s.table, p);
    DeletedSerials(s.table, p);
    forall q | q in table && table[q].serial == x ensures q == z && table[q].zombie && table[q].exitValue == v {
      assert s.table[q].serial == x;
      WakeAllKeeps(s.table[q]);
    }
  }

  lemma WakeAllKeeps(process: Process)
    ensures WakeAll(process) == process.(threads := WakeAll(process).threads)
  {
  }

  lemma StepEnded(s: State, e: Event, s': State, z: nat, x: nat, v: int)
    requires Ended(s, z, x, v) && Step(s, e, s')
    ensures Ended(s', z, x, v)
  {
    hide Waited, Deleted;
    match e
    case Exit(p, status) =>
      assert s.table[p].serial != x;
      DeletedEnded(s.(table := SetExit(s.table, p, status)), p, z, x, v);
    case Stop(p) => DeletedEnded(s, p, z, x, v);
    case Wait(p, t, target, nohang, r) => WaitedEnded(s, p, t, target, nohang, r, s', z, x, v);
    case Resume(p, t, interrupted, r) =>
      var s1 := SetThread(s, p, t, Outside);
      assert Ended(s1, z, x, v);
      if !interrupted {
        WaitedEnded(s1, p, t, s.table[p].threads[t].target, false, r, s', z, x, v);
      }
    case EndThread(p, t, detached) =>
      assert s.table[p].serial != x;
      DeletedEnded(s.(table := SetExit(s.table, p, 0)), p, z, x, v);
    case _ =>
  }

  /** A process that has ended never runs again, and keeps its exit value until, at most once, waitpid
      hands out exactly that value. */
  lemma {:induction false} ExitValueKept(ss: seq<State>, es: seq<Event>, i: nat, j: nat, z: nat)
    requires Run(ss, es) && i <= j < |ss| && z in ss[i].table && ss[i].table[z].zombie
    ensures Ended(ss[j], z, ss[i].table[z].serial, ss[i].table[z].exitValue)
    ensures forall k, l :: 0 <= k < |ss[j].reaped| && 0 <= l < |ss[j].reaped| && ss[j].reaped[k].serial == ss[j].reaped[l].serial ==> k == l
    decreases j
  {
    hide Step, Ended, Inv;
    RunKeeps(ss, es, j);
    ReapedOnce(ss[j]);
    if i == j {
      EndedNow(ss[i], z);
    } else {
      ExitValueKept(ss, es, i, j - 1, z);
      StepEnded(ss[j - 1], es[j - 1], ss[j], z, ss[i].table[z].serial, ss[i].table[z].exitValue);
    }
  }

  // ---------------------------------------------------------------- births, deaths and what waitpid says

  /** A new process has a pid nobody had, one thread, no children and no value, and only its father, if it
      has one, is told. */
  lemma BirthIs(ss: seq<State>, es: seq<Event>, i: nat, pid: nat, q: nat)
    requires Run(ss, es) && i < |es| && ((es[i].Start? || es[i].Fork?) && es[i].pid == pid)
    ensures |ss| == |es| + 1
    ensures pid !in ss[i].table && pid in ss[i + 1].table
    ensures var born := ss[i + 1].table[pid];
            && born.ppid == (if es[i].Fork? then es[i].p else 0) && born.children == {} && !born.zombie && born.exitValue == 0
            && born.threads == map[0 := Outside]
    ensures q != pid ==> (q in ss[i + 1].table <==> q in ss[i].table)
    ensures q != pid && q in ss[i].table ==>
              ss[i + 1].table[q] == ss[i].table[q].(children := ss[i].table[q].children + if es[i].Fork? && es[i].p == q then {pid} else {})
  {
    assert Step(ss[i], es[i], ss[i + 1]);
    assert q in ss[i].table ==> ss[i].table[q] == ss[i].table[q].(children := ss[i].table[q].children + {});
  }

  /** What is left of a process q when p ends: p itself is a zombie if it has a father other than init, and
      gone if not; its children are init's, those that had ended gone; its father's sleepers are woken; and
      nobody else is touched. */
  ghost predicate Left(table: Table, p: nat, q: nat, table': Table)
    requires p in table && q in table
  {
    if q == p then
      (p in table' <==> table[p].ppid > 1)
      && (p in table' ==> table'[p].zombie && table'[p].ppid == table[p].ppid && table'[p].children == {} && table'[p].threads == map[])
    else if table[q].ppid == p then
      (q in table' <==> !table[q].zombie) && (q in table' ==> table'[q] == table[q].(ppid := 1))
    else
      q in table' && table'[q] == table[q].(threads := table'[q].threads)
      && if q != table[p].ppid || q <= 1 then table'[q].threads == table[q].threads
         else table'[q].threads.Keys == table[q].threads.Keys
              && forall t :: t in table[q].threads ==>
                   table'[q].threads[t] == if table[q].threads[t].Asleep? then Woken(table[q].threads[t].target) else table[q].threads[t]
  }

  lemma DeathIs(ss: seq<State>, es: seq<Event>, i: nat, p: nat, q: nat)
    requires Run(ss, es) && i < |es| && Ends(ss[i], es[i], p)
    ensures |ss| == |es| + 1
    ensures q in ss[i].table ==> Left(ss[i].table, p, q, ss[i + 1].table)
    ensures q in ss[i + 1].table ==> q in ss[i].table
  {
    hide Deleted, Left;
    RunKeeps(ss, es, i);
    assert Step(ss[i], es[i], ss[i + 1]);
    var s := ss[i];
    if es[i].Stop? {
      assert s.table == s.table[p := s.table[p].(exitValue := s.table[p].exitValue)];
      DeletedLeaves(s, s.table, p, q);
    } else {
      DeletedLeaves(s, SetExit(s.table, p, if es[i].Exit? then es[i].status else 0), p, q);
    }
  }

  lemma DeletedLeaves(s: State, table: Table, p: nat, q: nat)
    requires Inv(s) && p in s.table && p in table && table == s.table[p := s.table[p].(exitValue := table[p].exitValue)]
    ensures q in s.table ==> Left(s.table, p, q, Deleted(table, p))
    ensures q in Deleted(table, p) ==> q in s.table
  {
    hide WaitersOk, SerialsOk;
    if q in s.table {
      ChildFacts(s.table, p, q);
      NoLoop(s.table, p);
    }
  }

  /** What thread t of p is after an event about it alone; None when it is gone. */
  function ThreadAfter(e: Event, before: Option<Waiting>): Option<Waiting> {
    match e
    case NewThread(p, t) => Some(Outside)
    case EndThread(p, t, detached) => if detached then None else Some(Finished)
    case JoinThread(p, t) => None
    case DetachThread(p, t) => Some(Abandoned)
    case Disturb(p, t) => if before.Some? && before.value.Asleep? then Some(Woken(before.value.target)) else before
    case _ => before
  }

  function ThreadAt(table: Table, p: nat, t: nat): Option<Waiting> {
    if p in table && t in table[p].threads then Some(table[p].threads[t]) else None
  }

  /** An event of one thread changes that thread and nothing else. */
  lemma OneThread(ss: seq<State>, es: seq<Event>, i: nat, q: nat, u: nat)
    requires Run(ss, es) && i < |es| && (es[i].NewThread? || es[i].EndThread? || es[i].JoinThread? || es[i].DetachThread? || es[i].Disturb?)
    requires !Ends(ss[i], es[i], es[i].p)
    ensures |ss| == |es| + 1 && ss[i + 1].table.Keys == ss[i].table.Keys
    ensures ThreadAt(ss[i + 1].table, q, u) ==
              if q == es[i].p && u == es[i].t then ThreadAfter(es[i], ThreadAt(ss[i].table, q, u)) else ThreadAt(ss[i].table, q, u)
    ensures q in ss[i].table ==> ss[i + 1].table[q] == ss[i].table[q].(threads := ss[i + 1].table[q].threads)
  {
    assert Step(ss[i], es[i], ss[i + 1]);
  }

  /** q is a child of p that waitpid (target) is about, to judge by its father. */
  predicate Kid(table: Table, p: nat, target: int, q: nat) {
    q in table && table[q].ppid == p && (target == -1 || target == q)
  }

  /** waitpid collects the least ended child that matches; fails when no child does; and otherwise returns at
      once or sleeps, as asked. */
  ghost predicate Answers(s: State, p: nat, t: nat, target: int, nohang: bool, r: Outcome, s': State) {
    match r
    case Collected(q, status) =>
      && Kid(s.table, p, target, q) && s.table[q].zombie && status == s.table[q].exitValue
      && (forall x :: Kid(s.table, p, target, x) && s.table[x].zombie ==> q <= x)
      && q !in s'.table && s'.reaped == s.reaped + [Reaping(s.table[q].serial, status)]
    case StillRunning =>
      && nohang && (exists q :: Kid(s.table, p, target, q)) && (forall q :: Kid(s.table, p, target, q) ==> !s.table[q].zombie)
      && s' == s
    case Failed(e) => e == ECHILD && (forall q :: !Kid(s.table, p, target, q)) && s' == s
    case Sleeping =>
      && !nohang && (exists q :: Kid(s.table, p, target, q)) && (forall q :: Kid(s.table, p, target, q) ==> !s.table[q].zombie)
      && p in s'.table && t in s'.table[p].threads && s'.table[p].threads[t] == Asleep(target)
  }

  lemma WaitAnswers(ss: seq<State>, es: seq<Event>, i: nat)
    requires Run(ss, es) && i < |es|
    ensures |ss| == |es| + 1
    ensures match es[i]
      case Wait(p, t, target, nohang, r) => Answers(ss[i], p, t, target, nohang, r, ss[i + 1])
      case Resume(p, t, interrupted, r) =>
        HasThread(ss[i], p, t) && ss[i].table[p].threads[t].Woken? &&
        (!interrupted ==> Answers(SetThread(ss[i], p, t, Outside), p, t, ss[i].table[p].threads[t].target, false, r, ss[i + 1]))
      case _ => true
  {
    hide Inv, Waited, Answers;
    RunKeeps(ss, es, i);
    assert Step(ss[i], es[i], ss[i + 1]);
    match es[i]
    case Wait(p, t, target, nohang, r) => WaitedAnswers(ss[i], p, t, target, nohang, r, ss[i + 1]);
    case Resume(p, t, interrupted, r) =>
      if !interrupted {
        SetThreadKeeps(ss[i], p, t, Outside);
        WaitedAnswers(SetThread(ss[i], p, t, Outside), p, t, ss[i].table[p].threads[t].target, false, r, ss[i + 1]);
      }
    case _ =>
  }

  lemma WaitedAnswers(s: State, p: nat, t: nat, target: int, nohang: bool, r: Outcome, s': State)
    requires Inv(s) && Waited(s, p, t, target, nohang, r, s')
    ensures Answers(s, p, t, target, nohang, r, s')
  {
    hide WaitersOk, SerialsOk, ZombiesOk;
    forall q ensures Kid(s.table, p, target, q) <==> Matches(s.table, p, target, q) {
      ChildFacts(s.table, p, q);
    }
    if x :| Matches(s.table, p, target, x) {
      assert Kid(s.table, p, target, x);
    }
    forall q ensures EndedMatch(s.table, p, target, q) <==> Kid(s.table, p, target, q) && s.table[q].zombie {
    }
  }

  // ---------------------------------------------------------------- the status waitpid returns

  /** Processes that have not ended have no exit value yet. */
  ghost predicate NoValueYet(s: State) {
    forall p :: Alive(s, p) ==> s.table[p].exitValue == 0
  }

  /** Deleting p leaves the others' values alone, and p, if it stays, a zombie with its own. */
  lemma DeletedValues(table: Table, p: nat, q: nat)
    requires p in table && q in Deleted(table, p)
    ensures q in table && Deleted(table, p)[q].exitValue == table[q].exitValue && Deleted(table, p)[q].serial == table[q].serial
    ensures if q == p then Deleted(table, p)[q].zombie else Deleted(table, p)[q].zombie == table[q].zombie
  {
  }

  lemma WaitedValues(s: State, p: nat, t: nat, target: int, nohang: bool, r: Outcome, s': State, q: nat)
    requires Waited(s, p, t, target, nohang, r, s') && q in s'.table
    ensures q in s.table && s'.table[q].exitValue == s.table[q].exitValue && s'.table[q].zombie == s.table[q].zombie
  {
    hide AnyMatch, AnyEnded, EndedMatch;
  }

  lemma NoValueStep(s: State, e: Event, s': State)
    requires NoValueYet(s) && Step(s, e, s')
    ensures NoValueYet(s')
  {
    hide Waited, Deleted;
    forall q | Alive(s', q) ensures s'.table[q].exitValue == 0 {
      match e
      case Exit(p, status) => DeletedValues(SetExit(s.table, p, status), p, q);
      case Stop(p) => DeletedValues(s.table, p, q);
      case EndThread(p, t, detached) =>
        if |s.table[p].threads| == 1 {
          DeletedValues(SetExit(s.table, p, 0), p, q);
        }
      case Wait(p, t, target, nohang, r) => WaitedValues(s, p, t, target, nohang, r, s', q);
      case Resume(p, t, interrupted, r) =>
        if !interrupted {
          WaitedValues(SetThread(s, p, t, Outside), p, t, s.table[p].threads[t].target, false, r, s', q);
        }
      case _ =>
      assert q in s.table ==> Alive(s, q);
    }
  }

  lemma {:induction false} RunningHaveNoValue(ss: seq<State>, es: seq<Event>, i: nat)
    requires Run(ss, es) && i < |ss|
    ensures NoValueYet(ss[i])
  {
    hide Step;
    if i > 0 {
      RunningHaveNoValue(ss, es, i - 1);
      NoValueStep(ss[i - 1], es[i - 1], ss[i]);
    }
  }

  /** In this step process p ends: it exits, its only thread ends, or the simulator stops it. */
  predicate Ends(s: State, e: Event, p: nat) {
    Alive(s, p) &&
    match e
    case Exit(q, status) => q == p
    case EndThread(q, t, detached) => q == p && |s.table[p].threads| == 1
    case Stop(q) => q == p
    case _ => false
  }

  /** In this step waitpid returns process q and this status. */
  predicate Collects(e: Event, q: nat, status: int) {
    match e
    case Wait(p, t, target, nohang, r) => r == Collected(q, status)
    case Resume(p, t, interrupted, r) => !interrupted && r == Collected(q, status)
    case _ => false
  }

  lemma DeletedEnds(s: State, table: Table, p: nat)
    requires SerialsOk(s) && p in s.table && p in table && table == s.table[p := s.table[p].(exitValue := table[p].exitValue)]
    ensures Ended(s.(table := Deleted(table, p)), p, s.table[p].serial, table[p].exitValue)
  {
    hide Deleted;
    var s' := s.(table := Deleted(table, p));
    forall q | q in s'.table && s'.table[q].serial == s.table[p].serial
      ensures q == p && s'.table[q].zombie && s'.table[q].exitValue == table[p].exitValue
    {
      DeletedValues(table, p, q);
    }
  }

  lemma EndsWith(s: State, e: Event, s': State, p: nat)
    requires Inv(s) && NoValueYet(s) && Step(s, e, s') && Ends(s, e, p)
    ensures Ended(s', p, s.table[p].serial, if e.Exit? then 256 * e.status else 0)
  {
    hide Deleted, Ended, FamilyOk, WaitersOk, ZombiesOk, SerialsOk;
    assert s.table[p].exitValue == 0;
    if e.Stop? {
      assert s.table == s.table[p := s.table[p].(exitValue := s.table[p].exitValue)];
      DeletedEnds(s, s.table, p);
    } else {
      DeletedEnds(s, SetExit(s.table, p, if e.Exit? then e.status else 0), p);
    }
  }

  lemma {:induction false} EndedKept(ss: seq<State>, es: seq<Event>, i: nat, j: nat, p: nat, x: nat, v: int)
    requires Run(ss, es) && i <= j < |ss| && Ended(ss[i], p, x, v)
    ensures Ended(ss[j], p, x, v)
    decreases j
  {
    hide Step, Ended;
    if i < j {
      EndedKept(ss, es, i, j - 1, p, x, v);
      StepEnded(ss[j - 1], es[j - 1], ss[j], p, x, v);
    }
  }

  /** The status that waitpid returns for a process is the one it exited with in the upper bytes and no signal
      below, and zero when its only thread ended or the simulator stopped it. */
  lemma StatusReturned(ss: seq<State>, es: seq<Event>, k: nat, p: nat, j: nat, q: nat, status: int)
    requires Run(ss, es) && k < j < |es| && Ends(ss[k], es[k], p) && Collects(es[j], q, status)
    requires q in ss[j].table && ss[j].table[q].serial == ss[k].table[p].serial
    ensures q == p && status % 256 == 0 && status / 256 == if es[k].Exit? then es[k].status else 0
  {
    hide Inv, NoValueYet;
    RunKeeps(ss, es, k);
    RunningHaveNoValue(ss, es, k);
    EndsWith(ss[k], es[k], ss[k + 1], p);
    EndedKept(ss, es, k + 1, j, p, ss[k].table[p].serial, if es[k].Exit? then 256 * es[k].status else 0);
    assert Step(ss[j], es[j], ss[j + 1]);
  }

  lemma ReapedOnce(s: State)
    requires Inv(s)
    ensures forall k, l :: 0 <= k < |s.reaped| && 0 <= l < |s.reaped| && s.reaped[k].serial == s.reaped[l].serial ==> k == l
  {
    hide FamilyOk, WaitersOk;
  }

  lemma EndedNow(s: State, z: nat)
    requires Inv(s) && z in s.table && s.table[z].zombie
    ensures Ended(s, z, s.table[z].serial, s.table[z].exitValue)
  {
  }

  /** A pid in the table, zombies included, is nobody else's: whoever has it at a later time without having
      had it all along is a different process. */
  lemma PidKept(s: State, e: Event, s': State, p: nat)
    requires Inv(s) && Step(s, e, s') && p in s.table && p in s'.table
    ensures s'.table[p].serial == s.table[p].serial
  {
    hide Waited, Deleted;
    match e
    case Exit(q, status) => DeletedSerials(SetExit(s.table, q, status), q);
    case Stop(q) => DeletedSerials(s.table, q);
    case Wait(q, t, target, nohang, r) => WaitedSerial(s, q, t, target, nohang, r, s', p);
    case Resume(q, t, interrupted, r) =>
      if !interrupted {
        WaitedSerial(SetThread(s, q, t, Outside), q, t, s.table[q].threads[t].target, false, r, s', p);
      }
    case EndThread(q, t, detached) => DeletedSerials(SetExit(s.table, q, 0), q);
    case _ =>
  }

  lemma WaitedSerial(s: State, p: nat, t: nat, target: int, nohang: bool, r: Outcome, s': State, q: nat)
    requires Waited(s, p, t, target, nohang, r, s') && q in s.table && q in s'.table
    ensures s'.table[q].serial == s.table[q].serial
  {
    hide AnyMatch, AnyEnded, EndedMatch;
  }

  lemma StrandedStep(s: State, e: Event, s': State, p: nat)
    requires Stranded(s.table, p) && Step(s, e, s') && e != Stop(p)
    ensures Stranded(s'.table, p)
  {
  }

  /** A process left with no thread but ended ones is there until the simulator stops it: it makes no call
      itself, and nothing other processes do ends it. */
  lemma {:induction false} StrandedStays(ss: seq<State>, es: seq<Event>, i: nat, j: nat, p: nat)
    requires Run(ss, es) && i <= j < |ss| && Stranded(ss[i].table, p) && forall k :: i <= k < j ==> es[k] != Stop(p)
    ensures Stranded(ss[j].table, p) && ss[j].table[p].serial == ss[i].table[p].serial
    decreases j
  {
    hide Step, Inv;
    if i < j {
      StrandedStays(ss, es, i, j - 1, p);
      StrandedStep(ss[j - 1], es[j - 1], ss[j], p);
      RunKeeps(ss, es, j - 1);
      PidKept(ss[j - 1], es[j - 1], ss[j], p);
    }
  }

  predicate HasAbandoned(table: Table, p: nat, t: nat) {
    p in table && !table[p].zombie && t in table[p].threads && table[p].threads[t] == Abandoned
  }

  lemma AbandonedStep(s: State, e: Event, s': State, p: nat, t: nat)
    requires HasAbandoned(s.table, p, t) && Step(s, e, s') && e != Stop(p) && !(e.Exit? && e.p == p)
    ensures HasAbandoned(s'.table, p, t)
  {
    if e.EndThread? && e.p == p {
      TwoThreads(s.table[p].threads, t, e.t);
    }
  }

  lemma TwoThreads(threads: map<nat, Waiting>, t: nat, u: nat)
    requires t in threads && u in threads && t != u
    ensures |threads| != 1
  {
    assert |threads| == |threads.Keys|;
    assert {t, u} <= threads.Keys && |{t, u}| == 2;
    SubsetSize({t, u}, threads.Keys);
  }

  /** A thread detached after it has ended never goes, and the end of its process's last running thread no
      longer ends the process: only exit or the simulator does. */
  lemma {:induction false} AbandonedStays(ss: seq<State>, es: seq<Event>, i: nat, j: nat, p: nat, t: nat)
    requires Run(ss, es) && i <= j < |ss| && HasAbandoned(ss[i].table, p, t)
    requires forall k :: i <= k < j ==> es[k] != Stop(p) && !(es[k].Exit? && es[k].p == p)
    ensures HasAbandoned(ss[j].table, p, t) && ss[j].table[p].serial == ss[i].table[p].serial
    decreases j
  {
    hide Step, Inv;
    if i < j {
      AbandonedStays(ss, es, i, j - 1, p, t);
      AbandonedStep(ss[j - 1], es[j - 1], ss[j], p, t);
      RunKeeps(ss, es, j - 1);
      PidKept(ss[j - 1], es[j - 1], ss[j], p);
    }
  }

  function OneProcess(threads: map<nat, Waiting>): State {
    State(map[2 := Process(0, {}, false, 0, threads, 0)], 1, [])
  }

  /** A process whose second thread ends, unjoined, before its first. */
  const STRANDING: seq<State> := [State(map[], 0, []), OneProcess(map[0 := Outside]), OneProcess(map[0 := Outside, 1 := Outside]),
    OneProcess(map[0 := Outside, 1 := Finished]), OneProcess(map[0 := Finished, 1 := Finished])]

  lemma StrandingRun()
    ensures Run(STRANDING, [Start(2), NewThread(2, 1), EndThread(2, 1, false), EndThread(2, 0, false)])
    ensures Stranded(STRANDING[4].table, 2)
  {
    hide Step;
    assert Step(STRANDING[0], Start(2), STRANDING[1]) by {
      StartsAlone();
    }
    SecondThread();
    EndsUnjoined(map[0 := Outside, 1 := Outside], 1);
    EndsUnjoined(map[0 := Outside, 1 := Finished], 0);
    assert map[0 := Outside, 1 := Outside][1 := Finished] == map[0 := Outside, 1 := Finished];
    assert map[0 := Outside, 1 := Finished][0 := Finished] == map[0 := Finished, 1 := Finished];
  }

  lemma StartsAlone()
    ensures Step(STRANDING[0], Start(2), STRANDING[1])
  {
  }

  lemma SecondThread()
    ensures Step(STRANDING[1], NewThread(2, 1), STRANDING[2])
  {
    var s := STRANDING[1];
    assert HasThread(s, 2, 0);
    assert map[0 := Outside][1 := Outside] == map[0 := Outside, 1 := Outside];
    assert SetThread(s, 2, 1, Outside).table == STRANDING[2].table;
  }

  lemma EndsUnjoined(threads: map<nat, Waiting>, t: nat)
    requires threads.Keys == {0, 1} && t in threads && threads[t] == Outside
    ensures Step(OneProcess(threads), EndThread(2, t, false), OneProcess(threads[t := Finished]))
  {
    var s := OneProcess(threads);
    assert |threads| == |threads.Keys| == 2;
    assert SetThread(s, 2, t, Finished).table == OneProcess(threads[t := Finished]).table;
  }
}
