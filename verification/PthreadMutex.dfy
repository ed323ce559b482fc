/** The pthread_mutex calls, and whole runs of them. */
module PthreadMutexCalls {
  import opened MutexProtocol
  import opened Options

  /** A call returns a code, or has gone to sleep in lock. */
  datatype Reply = Returned(code: Code) | Sleeping

  ghost predicate Locked(s: State, t: nat, r: Reply, s': State) {
    if s.mutex.None? then r == Returned(EINVAL) && s' == s
    else
      var m := s.mutex.value;
      if m.current == t then
        if m.kind == RECURSIVE then r == Returned(OK) && s' == Taken(s, m, t) else r == Returned(EDEADLK) && s' == s
      else r == (if m.current == 0 then Returned(OK) else Sleeping) && s' == Turn(s, m, t)
  }

  /** trylock never waits: a NORMAL mutex is busy even for its own holder. */
  ghost predicate Tried(s: State, t: nat, code: Code, s': State) {
    if s.mutex.None? then code == EINVAL && s' == s
    else
      var m := s.mutex.value;
      if m.current == 0 || (m.current == t && m.kind == RECURSIVE) then code == OK && s' == Taken(s, m, t)
      else code == EBUSY && s' == s
  }

  ghost predicate Released(s: State, t: nat, code: Code, s': State) {
    if s.mutex.None? then code == EINVAL && s' == s
    else if s.mutex.value.current == t then
      code == OK && s.mutex.value.count > 0 && Holds(s, t) > 0 && s' == Unlocked(s, s.mutex.value, t)
    else code == EPERM && s' == s
  }

  ghost predicate Destroyed(s: State, code: Code, s': State) {
    if s.mutex.None? then code == EINVAL && s' == s
    else if s.mutex.value.current != 0 || s.mutex.value.waiting != [] then code == EBUSY && s' == s
    else code == OK && s' == s.(mutex := None)
  }

  class PthreadMutex {
    var kind: Kind
    var count: nat
    var waiting: seq<nat>
    var current: nat
    /** Whether SearchMutex still finds it. */
    var exists_: bool
    var threads: map<nat, Where>
    ghost var holds: map<nat, nat>

    ghost function S(): State
      reads this
    {
      State(if exists_ then Some(Mutex(kind, count, waiting, current)) else None, threads, holds)
    }

    ghost predicate Valid()
      reads this
    {
      Inv(S())
    }

    constructor (kind: Kind)
      ensures Valid() && S() == State(Some(Mutex(kind, 0, [], 0)), map[], map[])
    {
      this.kind, count, waiting, current, exists_ := kind, 0, [], 0, true;
      threads, holds := map[], map[];
    }

    method Lock(t: nat) returns (r: Reply)
      requires Valid() && t > 0 && At(S(), t) == Outside
      modifies this
      ensures Valid() && Locked(old(S()), t, r, S())
    {
      hide MutexInv;
      if !exists_ {
        return Returned(EINVAL);
      }
      ghost var m := Mutex(kind, count, waiting, current);
      OutsideNotQueued(S(), m, t);
      if t == current {
        if kind == RECURSIVE {
          TakenKeeps(S(), m, t);
          count := count + 1;
          holds := holds[t := Holds(S(), t) + 1];
          return Returned(OK);
        }
        return Returned(EDEADLK);
      }
      TurnKeeps(S(), m, t);
      r := TakeTurn(t);
    }

    /** The test of the waiting loop, and what follows it. */
    method TakeTurn(t: nat) returns (r: Reply)
      requires exists_
      modifies this
      ensures r == (if old(current) == 0 then Returned(OK) else Sleeping)
      ensures S() == Turn(old(S()), old(Mutex(kind, count, waiting, current)), t)
    {
      if current != 0 {
        waiting := waiting + [t];
        threads := threads[t := Asleep];
        r := Sleeping;
      } else {
        current := t;
        count := count + 1;
        holds := holds[t := Holds(S(), t) + 1];
        threads := threads[t := Outside];
        r := Returned(OK);
      }
    }

    /** A thread woken inside lock runs: the mutex still exists, and the loop goes round once more. */
    method Resume(t: nat) returns (r: Reply)
      requires Valid() && t > 0 && At(S(), t) == Woken
      modifies this
      ensures Valid() && old(S()).mutex.Some?
      ensures r == (if old(current) == 0 then Returned(OK) else Sleeping)
      ensures S() == Resumed(old(S()), old(S()).mutex.value, t)
    {
      hide MutexInv;
      InsideIsQueued(S(), t);
      ResumedKeeps(S(), Mutex(kind, count, waiting, current), t);
      Remove(t);
      r := TakeTurn(t);
    }

    /** std::list::remove. */
    method Remove(t: nat)
      modifies this`waiting
      ensures waiting == Without(old(waiting), t)
    {
      var q := [];
      assert waiting[0..] == waiting;
      for i := 0 to |waiting|
        invariant waiting == old(waiting) && q + Without(waiting[i..], t) == Without(waiting, t)
      {
        assert waiting[i..][0] == waiting[i] && waiting[i..][1..] == waiting[i + 1..];
        ghost var rest := Without(waiting[i + 1..], t);
        if waiting[i] != t {
          assert q + ([waiting[i]] + rest) == q + [waiting[i]] + rest;
          q := q + [waiting[i]];
        } else {
          assert [] + rest == rest;
        }
      }
      assert waiting[|waiting|..] == [] && q + [] == q;
      waiting := q;
    }

    method TryLock(t: nat) returns (code: Code)
      requires Valid() && t > 0 && At(S(), t) == Outside
      modifies this
      ensures Valid() && Tried(old(S()), t, code, S())
    {
      hide MutexInv;
      if !exists_ {
        return EINVAL;
      }
      ghost var m := Mutex(kind, count, waiting, current);
      OutsideNotQueued(S(), m, t);
      if kind == RECURSIVE {
        if current == 0 || current == t {
          TakenKeeps(S(), m, t);
          current := t;
          count := count + 1;
          holds := holds[t := Holds(S(), t) + 1];
          return OK;
        }
        return EBUSY;
      }
      if current == 0 {
        TakenKeeps(S(), m, t);
        count := count + 1;
        current := t;
        holds := holds[t := Holds(S(), t) + 1];
        return OK;
      }
      code := EBUSY;
    }

    method Unlock(t: nat) returns (code: Code)
      requires Valid() && t > 0 && At(S(), t) == Outside
      modifies this
      ensures Valid() && Released(old(S()), t, code, S())
    {
      hide MutexInv;
      if !exists_ {
        return EINVAL;
      }
      if current == 0 || current != t {
        return EPERM;
      }
      UnlockedKeeps(S(), Mutex(kind, count, waiting, current), t);
      count := count - 1;
      holds := holds[t := Holds(S(), t) - 1];
      if count == 0 {
        current := 0;
        if waiting != [] {
          Wakeup(waiting[0]);
        }
      }
      code := OK;
    }

    /** TaskManager::Wakeup does nothing for a thread that is awake. */
    method Wakeup(t: nat)
      modifies this`threads
      ensures threads == if At(old(S()), t) == Asleep then old(threads)[t := Woken] else old(threads)
    {
      if t in threads && threads[t] == Asleep {
        threads := threads[t := Woken];
      }
    }

    /** destroy succeeds only when nobody holds the mutex and nobody is inside lock. */
    method Destroy() returns (code: Code)
      requires Valid()
      modifies this
      ensures Valid() && Destroyed(old(S()), code, S())
    {
      hide MutexInv;
      if !exists_ {
        return EINVAL;
      }
      if current != 0 || waiting != [] {
        return EBUSY;
      }
      DestroyedKeeps(S(), Mutex(kind, count, waiting, current));
      assert count == 0;
      exists_ := false;
      code := OK;
    }

    /** A sleeping thread wakes for some other reason. */
    method Disturb(t: nat)
      requires Valid() && t > 0 && At(S(), t) == Asleep
      modifies this
      ensures Valid() && S() == Put(old(S()), t, Woken)
    {
      WokenKeeps(S(), t);
      threads := threads[t := Woken];
    }
  }

  lemma OutsideNotQueued(s: State, m: Mutex, t: nat)
    requires MutexInv(s, m) && t > 0 && At(s, t) == Outside
    ensures t !in m.waiting
  {
  }

  lemma InsideIsQueued(s: State, t: nat)
    requires Inv(s) && t > 0 && At(s, t) != Outside
    ensures s.mutex.Some? && t in s.mutex.value.waiting
  {
  }

  lemma TurnKeeps(s: State, m: Mutex, t: nat)
    requires MutexInv(s, m) && t > 0 && t !in m.waiting && m.current != t
    ensures Inv(Turn(s, m, t))
  {
    if m.current == 0 {
      TakenKeeps(s, m, t);
      var s' := Turn(s, m, t);
      assert At(s, t) == Outside;
      assert forall x :: At(s', x) == At(Taken(s, m, t), x) && Holds(s', x) == Holds(Taken(s, m, t), x);
    } else {
      QueuedKeeps(s, m, t);
    }
  }

  // ---------------------------------------------------------------- whole runs

  datatype Event =
    | CallLock(t: nat, r: Reply)
    | RunAgain(t: nat, r: Reply)
    | CallTryLock(t: nat, code: Code)
    | CallUnlock(t: nat, code: Code)
    | CallDestroy(code: Code)
    | WakeUp(t: nat)

  /** Each clause is the contract of one method. */
  ghost predicate Step(s: State, e: Event, s': State) {
    match e
    case CallLock(t, r) => t > 0 && At(s, t) == Outside && Locked(s, t, r, s')
    case RunAgain(t, r) =>
      && t > 0 && At(s, t) == Woken && s.mutex.Some? && s' == Resumed(s, s.mutex.value, t)
      && r == (if s.mutex.value.current == 0 then Returned(OK) else Sleeping)
    case CallTryLock(t, code) => t > 0 && At(s, t) == Outside && Tried(s, t, code, s')
    case CallUnlock(t, code) => t > 0 && At(s, t) == Outside && Released(s, t, code, s')
    case CallDestroy(code) => Destroyed(s, code, s')
    case WakeUp(t) => t > 0 && At(s, t) == Asleep && s' == Put(s, t, Woken)
  }

  ghost predicate Run(kind: Kind, ss: seq<State>, es: seq<Event>) {
    && |ss| == |es| + 1 && ss[0] == State(Some(Mutex(kind, 0, [], 0)), map[], map[])
    && forall i :: 0 <= i < |es| ==> Step(ss[i], es[i], ss[i + 1])
  }

  lemma StepKeeps(s: State, e: Event, s': State)
    requires Inv(s) && Step(s, e, s')
    ensures Inv(s')
  {
    hide MutexInv, Turn, Taken, Resumed, Unlocked;
    match e
    case CallLock(t, r) =>
      if s.mutex.Some? {
        var m := s.mutex.value;
        OutsideNotQueued(s, m, t);
        if m.current != t {
          TurnKeeps(s, m, t);
        } else if m.kind == RECURSIVE {
          TakenKeeps(s, m, t);
        }
      }
    case RunAgain(t, r) =>
      InsideIsQueued(s, t);
      ResumedKeeps(s, s.mutex.value, t);
    case CallTryLock(t, code) =>
      if s.mutex.Some? && code == OK {
        OutsideNotQueued(s, s.mutex.value, t);
        TakenKeeps(s, s.mutex.value, t);
      }
    case CallUnlock(t, code) =>
      if s.mutex.Some? && code == OK {
        UnlockedKeeps(s, s.mutex.value, t);
      }
    case CallDestroy(code) =>
      if s.mutex.Some? && code == OK {
        DestroyedKeeps(s, s.mutex.value);
      }
    case WakeUp(t) => WokenKeeps(s, t);
  }

  lemma {:induction false} RunKeeps(kind: Kind, ss: seq<State>, es: seq<Event>, i: nat)
    requires Run(kind, ss, es) && i < |ss|
    ensures Inv(ss[i])
  {
    hide Step;
    if i == 0 {
      assert forall t :: Holds(ss[0], t) == 0 && At(ss[0], t) == Outside;
    } else {
      RunKeeps(kind, ss, es, i - 1);
      StepKeeps(ss[i - 1], es[i - 1], ss[i]);
    }
  }

  // ---------------------------------------------------------------- what the calls have answered

  /** How many locks of t have succeeded in the first n events, less its unlocks. */
  function Locks(es: seq<Event>, t: nat, n: nat): int
    requires n <= |es|
  {
    if n == 0 then 0
    else
      var before := Locks(es, t, n - 1);
      match es[n - 1]
      case CallLock(u, r) => if u == t && r == Returned(OK) then before + 1 else before
      case RunAgain(u, r) => if u == t && r == Returned(OK) then before + 1 else before
      case CallTryLock(u, code) => if u == t && code == OK then before + 1 else before
      case CallUnlock(u, code) => if u == t && code == OK then before - 1 else before
      case _ => before
  }

  /** t has called lock and not come back. */
  predicate InLock(es: seq<Event>, t: nat, n: nat)
    requires n <= |es|
  {
    n > 0 &&
    match es[n - 1]
    case CallLock(u, r) => if u == t then r == Sleeping else InLock(es, t, n - 1)
    case RunAgain(u, r) => if u == t then r == Sleeping else InLock(es, t, n - 1)
    case _ => InLock(es, t, n - 1)
  }

  predicate Gone(es: seq<Event>, n: nat)
    requires n <= |es|
  {
    exists i :: 0 <= i < n && es[i] == CallDestroy(OK)
  }

  /** What the events say of a state. */
  ghost predicate Agrees(kind: Kind, es: seq<Event>, n: nat, s: State)
    requires n <= |es|
  {
    && (s.mutex.None? <==> Gone(es, n)) && (s.mutex.Some? ==> s.mutex.value.kind == kind)
    && (forall t :: t > 0 ==> Holds(s, t) == Locks(es, t, n) && (At(s, t) != Outside <==> InLock(es, t, n)))
  }

  lemma {:induction false} RunAgrees(kind: Kind, ss: seq<State>, es: seq<Event>, n: nat)
    requires Run(kind, ss, es) && n <= |es|
    ensures |ss| == |es| + 1 && Agrees(kind, es, n, ss[n])
  {
    hide Step, Agrees, Inv;
    if n == 0 {
      NothingYet(kind, es, ss[0]);
    } else {
      RunAgrees(kind, ss, es, n - 1);
      RunKeeps(kind, ss, es, n - 1);
      StepAgrees(kind, es, n - 1, ss[n - 1], ss[n]);
    }
  }

  lemma NothingYet(kind: Kind, es: seq<Event>, s: State)
    requires s == State(Some(Mutex(kind, 0, [], 0)), map[], map[])
    ensures Agrees(kind, es, 0, s)
  {
  }

  lemma StepAgrees(kind: Kind, es: seq<Event>, n: nat, s: State, s': State)
    requires n < |es| && Agrees(kind, es, n, s) && Inv(s) && Step(s, es[n], s')
    ensures Agrees(kind, es, n + 1, s')
  {
    hide Inv, Locks, InLock, Step, Gone;
    StepGone(kind, es, n, s, s');
    forall t | t > 0 ensures Holds(s', t) == Locks(es, t, n + 1) && (At(s', t) != Outside <==> InLock(es, t, n + 1)) {
      assert Holds(s, t) == Locks(es, t, n) && (At(s, t) != Outside <==> InLock(es, t, n));
      StepLocks(es, n, s, s', t);
      StepInLock(es, n, s, s', t);
    }
  }

  lemma StepGone(kind: Kind, es: seq<Event>, n: nat, s: State, s': State)
    requires n < |es| && Agrees(kind, es, n, s) && Step(s, es[n], s')
    ensures (s'.mutex.None? <==> Gone(es, n + 1)) && (s'.mutex.Some? ==> s'.mutex.value.kind == kind)
  {
    hide Without, Holds, At;
    assert Gone(es, n + 1) <==> Gone(es, n) || es[n] == CallDestroy(OK);
  }

  lemma StepLocks(es: seq<Event>, n: nat, s: State, s': State, t: nat)
    requires n < |es| && t > 0 && Holds(s, t) == Locks(es, t, n) && Inv(s) && Step(s, es[n], s')
    ensures Holds(s', t) == Locks(es, t, n + 1)
  {
    hide Without, Distinct, SomeoneWoken;
  }

  lemma StepInLock(es: seq<Event>, n: nat, s: State, s': State, t: nat)
    requires n < |es| && t > 0 && (At(s, t) != Outside <==> InLock(es, t, n)) && Step(s, es[n], s')
    ensures At(s', t) != Outside <==> InLock(es, t, n + 1)
  {
    hide Without, Holds;
  }

  /** An unlock that undoes a thread's last lock wakes the first in the queue and nobody else; any other call
      of unlock wakes nobody. */
  lemma UnlockWakes(kind: Kind, ss: seq<State>, es: seq<Event>, n: nat, t: nat, code: Code, u: nat)
    requires Run(kind, ss, es) && n < |es| && es[n] == CallUnlock(t, code) && u > 0
    ensures |ss| == |es| + 1
    ensures At(ss[n + 1], u) == if code == OK && Locks(es, t, n) == 1 && Queue(ss[n]) != [] && u == Queue(ss[n])[0] then Woken else At(ss[n], u)
  {
    hide Agrees;
    RunAgrees(kind, ss, es, n);
    RunKeeps(kind, ss, es, n);
    assert Step(ss[n], es[n], ss[n + 1]);
    LocksAre(kind, es, n, ss[n], t);
    if ss[n].mutex.Some? && Queue(ss[n]) != [] {
      assert Queue(ss[n])[0] in Queue(ss[n]);
    }
  }

  lemma LocksAre(kind: Kind, es: seq<Event>, n: nat, s: State, t: nat)
    requires n <= |es| && Agrees(kind, es, n, s) && t > 0
    ensures Holds(s, t) == Locks(es, t, n)
  {
  }

  /** Nobody holds the mutex, to judge by the answers. */
  ghost predicate FreeNow(es: seq<Event>, n: nat)
    requires n <= |es|
  {
    forall t :: t > 0 ==> Locks(es, t, n) == 0
  }

  /** The answer to every call follows from the answers before it. A thread gets the mutex at once when
      nobody holds it, or once more when it is recursive and its own; an unlock undoes one lock. */
  ghost predicate Answered(kind: Kind, es: seq<Event>, n: nat)
    requires n < |es|
  {
    match es[n]
    case CallLock(t, r) =>
      r == if Gone(es, n) then Returned(EINVAL)
           else if Locks(es, t, n) > 0 then Returned(if kind == RECURSIVE then OK else EDEADLK)
           else if FreeNow(es, n) then Returned(OK) else Sleeping
    case RunAgain(t, r) => r == (if FreeNow(es, n) then Returned(OK) else Sleeping) && InLock(es, t, n) && !Gone(es, n)
    case CallTryLock(t, code) =>
      code == if Gone(es, n) then EINVAL
              else if FreeNow(es, n) || (kind == RECURSIVE && Locks(es, t, n) > 0) then OK else EBUSY
    case CallUnlock(t, code) => code == if Gone(es, n) then EINVAL else if Locks(es, t, n) > 0 then OK else EPERM
    case CallDestroy(code) =>
      code == if Gone(es, n) then EINVAL
              else if FreeNow(es, n) && forall t :: t > 0 ==> !InLock(es, t, n) then OK else EBUSY
    case WakeUp(t) => InLock(es, t, n)
  }

  lemma AnswersFollow(kind: Kind, ss: seq<State>, es: seq<Event>, n: nat)
    requires Run(kind, ss, es) && n < |es|
    ensures Answered(kind, es, n)
  {
    hide Inv, Agrees, Answered;
    RunAgrees(kind, ss, es, n);
    RunKeeps(kind, ss, es, n);
    StepAnswers(kind, es, n, ss[n], ss[n + 1]);
  }

  lemma StepAnswers(kind: Kind, es: seq<Event>, n: nat, s: State, s': State)
    requires n < |es| && Agrees(kind, es, n, s) && Inv(s) && Step(s, es[n], s')
    ensures Answered(kind, es, n)
  {
    hide Without, Taken, Unlocked, Resumed, Turn;
    if s.mutex.Some? {
      var m := s.mutex.value;
      assert m.current > 0 ==> Holds(s, m.current) == m.count == Locks(es, m.current, n);
      assert FreeNow(es, n) <==> m.current == 0;
      if m.waiting != [] {
        assert m.waiting[0] in m.waiting && At(s, m.waiting[0]) != Outside;
      }
    }
  }

  /** Mutual exclusion, to judge by the answers: two threads that both have locks not yet undone are one,
      nobody has undone more than it locked, and a NORMAL mutex is locked once at most. */
  lemma MutualExclusion(kind: Kind, ss: seq<State>, es: seq<Event>, n: nat, t: nat, u: nat)
    requires Run(kind, ss, es) && n <= |es| && t > 0 && u > 0
    ensures Locks(es, t, n) >= 0 && (kind == NORMAL ==> Locks(es, t, n) <= 1)
    ensures Locks(es, t, n) > 0 && Locks(es, u, n) > 0 ==> t == u
  {
    RunKeeps(kind, ss, es, n);
    RunAgrees(kind, ss, es, n);
  }

  /** A thread inside lock finds its mutex there, and whenever the mutex is free a queued thread is ready
      to run: no lock is left for nobody to take. */
  lemma WaitersGoOn(kind: Kind, ss: seq<State>, es: seq<Event>, i: nat, t: nat)
    requires Run(kind, ss, es) && i < |ss| && t > 0 && At(ss[i], t) != Outside
    ensures ss[i].mutex.Some? && t in ss[i].mutex.value.waiting && t != ss[i].mutex.value.current
    ensures ss[i].mutex.value.current == 0 ==> SomeoneWoken(ss[i], ss[i].mutex.value.waiting)
  {
    RunKeeps(kind, ss, es, i);
  }

  // ---------------------------------------------------------------- the order of service

  /** The thread that asks for the mutex in this step, unless it holds it or would not wait for it. */
  function Asked(s: State, e: Event): seq<nat> {
    match e
    case CallLock(t, r) => if s.mutex.Some? && s.mutex.value.current != t then [t] else []
    case CallTryLock(t, code) => if s.mutex.Some? && s.mutex.value.current == 0 then [t] else []
    case _ => []
  }

  /** The thread that gets the free mutex in this step. */
  function Granted(s: State, e: Event): seq<nat> {
    if s.mutex.None? || s.mutex.value.current != 0 then []
    else
      match e
      case CallLock(t, r) => [t]
      case CallTryLock(t, code) => [t]
      case RunAgain(t, r) => [t]
      case _ => []
  }

  /** Who has asked, and who has been served, in the first n steps. */
  function Arrivals(ss: seq<State>, es: seq<Event>, n: nat): seq<nat>
    requires n <= |es| <= |ss|
  {
    if n == 0 then [] else Arrivals(ss, es, n - 1) + Asked(ss[n - 1], es[n - 1])
  }

  function Grants(ss: seq<State>, es: seq<Event>, n: nat): seq<nat>
    requires n <= |es| <= |ss|
  {
    if n == 0 then [] else Grants(ss, es, n - 1) + Granted(ss[n - 1], es[n - 1])
  }

  function Queue(s: State): seq<nat> {
    if s.mutex.Some? then s.mutex.value.waiting else []
  }

  /** Those who came first have been served first, and the others wait in the order they came. */
  predicate InOrder(arrivals: seq<nat>, grants: seq<nat>, s: State) {
    arrivals == grants + Queue(s)
  }

  /** A thread outside takes the free mutex only when nobody waits. Of those woken in lock, only the first
      finds the mutex free, and only the last finds it taken. */
  predicate Polite(s: State, e: Event) {
    s.mutex.Some? ==>
      var m := s.mutex.value;
      match e
      case CallLock(t, r) => m.current == 0 ==> m.waiting == []
      case CallTryLock(t, code) => m.current == 0 ==> m.waiting == []
      case RunAgain(t, r) => m.waiting != [] && t == if m.current == 0 then m.waiting[0] else m.waiting[|m.waiting| - 1]
      case _ => true
  }

  lemma {:induction false} WithoutAbsent(q: seq<nat>, t: nat)
    requires t !in q
    ensures Without(q, t) == q
  {
    if q != [] {
      WithoutAbsent(q[1..], t);
    }
  }

  lemma {:induction false} WithoutFirst(q: seq<nat>, t: nat)
    requires Distinct(q) && t in q
    ensures q == [t] + Without(q, t) <==> q[0] == t
  {
    if q[0] == t {
      WithoutAbsent(q[1..], t);
    }
  }

  lemma {:induction false} WithoutLast(q: seq<nat>, t: nat)
    requires Distinct(q) && t in q
    ensures Without(q, t) + [t] == q <==> q[|q| - 1] == t
  {
    if q[|q| - 1] == t {
      WithoutEnd(q[..|q| - 1], t);
      assert q[..|q| - 1] + [t] == q;
    } else {
      assert (Without(q, t) + [t])[|Without(q, t)|] == t;
    }
  }

  lemma {:induction false} WithoutEnd(q: seq<nat>, t: nat)
    requires t !in q
    ensures Without(q + [t], t) == q
  {
    if q != [] {
      WithoutEnd(q[1..], t);
      assert (q + [t])[1..] == q[1..] + [t];
    } else {
      assert Without([t][1..], t) == [];
    }
  }

  /** Resuming leaves the queue as it was exactly when the thread was last and the mutex is taken. */
  lemma ResumedOrder(s: State, m: Mutex, t: nat)
    requires Distinct(m.waiting) && t in m.waiting
    ensures Queue(Resumed(s, m, t)) == m.waiting <==> m.current != 0 && m.waiting[|m.waiting| - 1] == t
  {
    hide Without;
    WithoutLast(m.waiting, t);
    WithoutIs(m.waiting, t);
  }

  /** A step keeps the order exactly when it is polite. */
  lemma StepOrder(s: State, e: Event, s': State, arrivals: seq<nat>, grants: seq<nat>)
    requires Inv(s) && Step(s, e, s') && InOrder(arrivals, grants, s)
    ensures InOrder(arrivals + Asked(s, e), grants + Granted(s, e), s') <==> Polite(s, e)
  {
    hide Without, MutexInv;
    match e
    case CallLock(t, r) => OvertakingOrder(s, t, arrivals, grants);
    case CallTryLock(t, code) => OvertakingOrder(s, t, arrivals, grants);
    case RunAgain(t, r) =>
      InsideIsQueued(s, t);
      ResumeOrder(s, t, arrivals, grants);
    case CallUnlock(t, code) =>
    case CallDestroy(code) =>
    case WakeUp(t) =>
  }

  lemma DistinctQueue(s: State)
    requires Inv(s)
    ensures Distinct(Queue(s))
  {
  }

  /** A woken thread keeps the order when it is the first to be served, or the last to wait. */
  lemma ResumeOrder(s: State, t: nat, arrivals: seq<nat>, grants: seq<nat>)
    requires Inv(s) && s.mutex.Some? && t in Queue(s) && InOrder(arrivals, grants, s)
    ensures var m := s.mutex.value;
            InOrder(arrivals, grants + (if m.current == 0 then [t] else []), Resumed(s, m, t))
            <==> t == if m.current == 0 then m.waiting[0] else m.waiting[|m.waiting| - 1]
  {
    hide Without;
    var m, q := s.mutex.value, Queue(s);
    DistinctQueue(s);
    if m.current == 0 {
      WithoutFirst(q, t);
      assert grants + [t] + Without(q, t) == grants + ([t] + Without(q, t));
      SamePrefix(grants, [t] + Without(q, t), q);
    } else {
      ResumedOrder(s, m, t);
      SamePrefix(grants, Queue(Resumed(s, m, t)), q);
      assert grants + [] == grants;
    }
  }

  lemma SamePrefix(p: seq<nat>, a: seq<nat>, b: seq<nat>)
    ensures p + a == p + b <==> a == b
  {
    assert (p + a)[|p|..] == a && (p + b)[|p|..] == b;
  }

  /** A thread served at once is served in its turn exactly when nobody waits. */
  lemma OvertakingOrder(s: State, t: nat, arrivals: seq<nat>, grants: seq<nat>)
    requires Inv(s) && t > 0 && At(s, t) == Outside && InOrder(arrivals, grants, s)
    ensures arrivals + [t] == grants + [t] + Queue(s) <==> Queue(s) == []
    ensures arrivals + [t] == grants + (Queue(s) + [t])
  {
    var q := Queue(s);
    if q != [] {
      assert q[0] in q && q[0] != t;
      assert (arrivals + [t])[|grants|] == q[0] && (grants + [t] + q)[|grants|] == t;
    }
  }

  /** Over a whole run the mutex is given out in the order threads ask for it, and the queue is that order,
      exactly when every step is polite. */
  lemma RunOrder(kind: Kind, ss: seq<State>, es: seq<Event>)
    requires Run(kind, ss, es)
    ensures |ss| == |es| + 1
    ensures (forall i :: 0 <= i <= |es| ==> InOrder(Arrivals(ss, es, i), Grants(ss, es, i), ss[i]))
       <==> (forall i :: 0 <= i < |es| ==> Polite(ss[i], es[i]))
  {
    OrderUpTo(kind, ss, es, |es|);
  }

  lemma {:induction false} OrderUpTo(kind: Kind, ss: seq<State>, es: seq<Event>, n: nat)
    requires Run(kind, ss, es) && n <= |es|
    ensures |ss| == |es| + 1
    ensures (forall i :: 0 <= i <= n ==> InOrder(Arrivals(ss, es, i), Grants(ss, es, i), ss[i]))
       <==> (forall i :: 0 <= i < n ==> Polite(ss[i], es[i]))
  {
    hide Step, Polite, Inv, InOrder, Arrivals, Grants;
    if n == 0 {
      NobodyCame(kind, ss, es);
    } else {
      OrderUpTo(kind, ss, es, n - 1);
      RunKeeps(kind, ss, es, n - 1);
      if InOrder(Arrivals(ss, es, n - 1), Grants(ss, es, n - 1), ss[n - 1]) {
        OrderAt(kind, ss, es, n);
      }
    }
  }

  lemma NobodyCame(kind: Kind, ss: seq<State>, es: seq<Event>)
    requires Run(kind, ss, es)
    ensures |ss| == |es| + 1 && InOrder(Arrivals(ss, es, 0), Grants(ss, es, 0), ss[0])
  {
  }

  lemma OrderAt(kind: Kind, ss: seq<State>, es: seq<Event>, n: nat)
    requires Run(kind, ss, es) && 0 < n <= |es| && Inv(ss[n - 1])
    requires InOrder(Arrivals(ss, es, n - 1), Grants(ss, es, n - 1), ss[n - 1])
    ensures InOrder(Arrivals(ss, es, n), Grants(ss, es, n), ss[n]) <==> Polite(ss[n - 1], es[n - 1])
  {
    hide Step, Polite, Asked, Granted, Inv, InOrder;
    StepOrder(ss[n - 1], es[n - 1], ss[n], Arrivals(ss, es, n - 1), Grants(ss, es, n - 1));
  }

  /** First come, first served. */
  lemma PoliteServes(kind: Kind, ss: seq<State>, es: seq<Event>)
    requires Run(kind, ss, es) && forall i :: 0 <= i < |es| ==> Polite(ss[i], es[i])
    ensures |ss| == |es| + 1 && Grants(ss, es, |es|) <= Arrivals(ss, es, |es|)
  {
    RunOrder(kind, ss, es);
  }

  /** What happens to a thread that is overtaken: woken by the last unlock, the first in the queue finds that
      u has locked the mutex meanwhile, and goes to the end. */
  lemma OvertakenGoesLast(s: State, t: nat, s1: State, u: nat, r: Reply, s2: State, s3: State)
    requires Inv(s) && s.mutex.Some? && s.mutex.value.count == 1 && s.mutex.value.waiting != []
    requires Step(s, CallUnlock(t, OK), s1) && Step(s1, CallLock(u, r), s2) && Step(s2, RunAgain(s.mutex.value.waiting[0], Sleeping), s3)
    ensures r == Returned(OK) && s3.mutex.Some? && s3.mutex.value.current == u
    ensures Queue(s3) == Queue(s)[1..] + [Queue(s)[0]]
    ensures !Polite(s1, CallLock(u, r))
  {
    hide Without;
    WithoutFirst(s.mutex.value.waiting, s.mutex.value.waiting[0]);
    assert s1.mutex.Some? && s1.mutex.value.waiting == s.mutex.value.waiting && s1.mutex.value.current == 0;
  }

  /** Threads 2 and 3 wait for 1; thread 4 is ready when 1 unlocks and locks before 2 runs again. */
  const OVERTAKING: seq<Event> := [CallLock(1, Returned(OK)), CallLock(2, Sleeping), CallLock(3, Sleeping),
    CallUnlock(1, OK), CallLock(4, Returned(OK)), RunAgain(2, Sleeping)]

  function Overtaking(): seq<State> {
    var asleep := map[1 := Outside, 2 := Asleep, 3 := Asleep];
    [State(Some(Mutex(NORMAL, 0, [], 0)), map[], map[]),
     State(Some(Mutex(NORMAL, 1, [], 1)), map[1 := Outside], map[1 := 1]),
     State(Some(Mutex(NORMAL, 1, [2], 1)), map[1 := Outside, 2 := Asleep], map[1 := 1]),
     State(Some(Mutex(NORMAL, 1, [2, 3], 1)), asleep, map[1 := 1]),
     State(Some(Mutex(NORMAL, 0, [2, 3], 0)), asleep[2 := Woken], map[1 := 0]),
     State(Some(Mutex(NORMAL, 1, [2, 3], 4)), asleep[2 := Woken][4 := Outside], map[1 := 0, 4 := 1]),
     State(Some(Mutex(NORMAL, 1, [3, 2], 4)), asleep[2 := Woken][4 := Outside][2 := Asleep], map[1 := 0, 4 := 1])]
  }

  /** Threads ask in the order 1, 2, 3, 4; the mutex goes to 1 and then to 4, and 3 is now before 2. */
  lemma OvertakingRun()
    ensures Run(NORMAL, Overtaking(), OVERTAKING) && |Overtaking()| == 7
    ensures Arrivals(Overtaking(), OVERTAKING, 6) == [1, 2, 3, 4] && Grants(Overtaking(), OVERTAKING, 6) == [1, 4]
    ensures Queue(Overtaking()[6]) == [3, 2] && !Polite(Overtaking()[4], OVERTAKING[4])
  {
    hide Step;
    FirstSteps();
    LastSteps();
    Served(Overtaking(), OVERTAKING);
  }

  lemma FirstSteps()
    ensures var ss, es := Overtaking(), OVERTAKING;
            Step(ss[0], es[0], ss[1]) && Step(ss[1], es[1], ss[2]) && Step(ss[2], es[2], ss[3])
  {
    assert [] + [2] == [2] && [2] + [3] == [2, 3];
  }

  lemma LastSteps()
    ensures var ss, es := Overtaking(), OVERTAKING;
            Step(ss[3], es[3], ss[4]) && Step(ss[4], es[4], ss[5]) && Step(ss[5], es[5], ss[6])
  {
    assert Without([2, 3], 2) == [3] && [3] + [2] == [3, 2] by {
      assert [2, 3][1..] == [3] && [3][1..] == [];
    }
  }

  lemma Served(ss: seq<State>, es: seq<Event>)
    requires ss == Overtaking() && es == OVERTAKING
    ensures |ss| == 7 && |es| == 6 && Arrivals(ss, es, 6) == [1, 2, 3, 4] && Grants(ss, es, 6) == [1, 4]
  {
    assert Arrivals(ss, es, 1) == [1] && Grants(ss, es, 1) == [1];
    assert Arrivals(ss, es, 3) == [1, 2, 3] && Grants(ss, es, 3) == [1];
    assert Arrivals(ss, es, 5) == [1, 2, 3, 4] && Grants(ss, es, 5) == [1, 4];
  }
}
