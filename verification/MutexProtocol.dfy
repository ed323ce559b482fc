/** One pthread mutex under cooperative threads. A thread gives way only where lock waits and where unlock
    yields, so everything between those points is one step; any thread may run next, woken threads may
    find the mutex taken again, and a waiting thread may wake for no reason. */
module MutexProtocol {
  import opened Options

  datatype Kind = NORMAL | RECURSIVE
  /** current is the holder, 0 when the mutex is free; waiting holds the lockers, first come first. */
  datatype Mutex = Mutex(kind: Kind, count: nat, waiting: seq<nat>, current: nat)
  /** A thread is outside lock, asleep in it, or woken in it and about to look again. */
  datatype Where = Outside | Asleep | Woken

  /** mutex is None once it has been destroyed. holds counts, for each thread, the successful locks minus
      the successful unlocks, as the thread itself would. */
  datatype State = State(mutex: Option<Mutex>, threads: map<nat, Where>, holds: map<nat, nat>)

  function At(s: State, t: nat): Where {
    if t in s.threads then s.threads[t] else Outside
  }

  function Holds(s: State, t: nat): nat {
    if t in s.holds then s.holds[t] else 0
  }

  ghost predicate Distinct(q: seq<nat>) {
    forall i, j :: 0 <= i < j < |q| ==> q[i] != q[j]
  }

  /** Some thread in the queue is ready to run. */
  ghost predicate SomeoneWoken(s: State, q: seq<nat>) {
    exists t :: t in q && At(s, t) == Woken
  }

  /** The holder agrees with what threads count, a lock's count is positive exactly when it is held, each
      thread inside lock is queued once, the holder never is, and a free mutex that threads wait for has a
      woken one among them. */
  ghost predicate MutexInv(s: State, m: Mutex) {
    && (forall t :: t > 0 ==> Holds(s, t) == if t == m.current then m.count else 0)
    && (m.count > 0 <==> m.current != 0) && (m.kind == NORMAL ==> m.count <= 1)
    && Distinct(m.waiting) && m.current !in m.waiting && 0 !in m.waiting
    && (forall t :: t > 0 ==> (t in m.waiting <==> At(s, t) != Outside))
    && (m.current == 0 && m.waiting != [] ==> SomeoneWoken(s, m.waiting))
  }

  /** A destroyed mutex is held by nobody and no thread is still inside lock. */
  ghost predicate Inv(s: State) {
    if s.mutex.Some? then MutexInv(s, s.mutex.value)
    else forall t :: t > 0 ==> Holds(s, t) == 0 && At(s, t) == Outside
  }

  // ---------------------------------------------------------------- the steps, as functions

  datatype Code = OK | EINVAL | EDEADLK | EBUSY | EPERM

  function SetMutex(s: State, m: Mutex): State {
    s.(mutex := Some(m))
  }

  function Put(s: State, t: nat, w: Where): State {
    s.(threads := s.threads[t := w])
  }

  function SetHolds(s: State, t: nat, n: nat): State {
    s.(holds := s.holds[t := n])
  }

  /** The mutex becomes t's. */
  function Taken(s: State, m: Mutex, t: nat): State {
    SetHolds(SetMutex(s, m.(current := t, count := m.count + 1)), t, Holds(s, t) + 1)
  }

  /** One turn of lock's waiting loop: t takes a free mutex, or goes to the end of the queue. */
  function Turn(s: State, m: Mutex, t: nat): State {
    if m.current == 0 then Put(Taken(s, m, t), t, Outside)
    else Put(SetMutex(s, m.(waiting := m.waiting + [t])), t, Asleep)
  }

  function Without(q: seq<nat>, t: nat): seq<nat> {
    if q == [] then [] else (if q[0] == t then [] else [q[0]]) + Without(q[1..], t)
  }

  /** A woken thread leaves the queue and looks again. */
  function Resumed(s: State, m: Mutex, t: nat): State {
    Turn(s, m.(waiting := Without(m.waiting, t)), t)
  }

  /** The last unlock frees the mutex and wakes the first in the queue. */
  function Unlocked(s: State, m: Mutex, t: nat): State
    requires m.count > 0 && Holds(s, t) > 0
  {
    var s1 := SetHolds(SetMutex(s, m.(count := m.count - 1, current := if m.count == 1 then 0 else m.current)), t, Holds(s, t) - 1);
    if m.count == 1 && m.waiting != [] && At(s, m.waiting[0]) == Asleep then Put(s1, m.waiting[0], Woken) else s1
  }

  // ---------------------------------------------------------------- what each step keeps

  lemma TakenKeeps(s: State, m: Mutex, t: nat)
    requires MutexInv(s, m) && t > 0 && t !in m.waiting && (m.current == 0 || (m.current == t && m.kind == RECURSIVE))
    ensures Inv(Taken(s, m, t))
  {
    hide SomeoneWoken;
    var s' := Taken(s, m, t);
    assert forall x :: Holds(s', x) == if x == t then Holds(s, t) + 1 else Holds(s, x);
    assert forall x :: At(s', x) == At(s, x);
  }

  lemma QueuedKeeps(s: State, m: Mutex, t: nat)
    requires MutexInv(s, m) && t > 0 && t !in m.waiting && m.current != 0 && m.current != t
    ensures Inv(Put(SetMutex(s, m.(waiting := m.waiting + [t])), t, Asleep))
  {
    hide SomeoneWoken;
    var s' := Put(SetMutex(s, m.(waiting := m.waiting + [t])), t, Asleep);
    assert forall x :: Holds(s', x) == Holds(s, x);
    assert forall x :: At(s', x) == if x == t then Asleep else At(s, x);
  }

  lemma {:induction false} WithoutIs(q: seq<nat>, t: nat)
    requires Distinct(q)
    ensures Distinct(Without(q, t)) && t !in Without(q, t)
    ensures forall x :: x in Without(q, t) <==> x in q && x != t
  {
    if q != [] {
      var rest := Without(q[1..], t);
      WithoutIs(q[1..], t);
      assert q[0] !in q[1..];
      assert forall x :: x in q <==> x == q[0] || x in q[1..];
      if q[0] != t {
        assert Without(q, t) == [q[0]] + rest;
        forall i, j | 0 <= i < j < |[q[0]] + rest| ensures ([q[0]] + rest)[i] != ([q[0]] + rest)[j] {
          assert rest[j - 1] in rest;
        }
      } else {
        assert Without(q, t) == rest;
      }
    }
  }

  lemma ResumedKeeps(s: State, m: Mutex, t: nat)
    requires MutexInv(s, m) && t > 0 && t in m.waiting
    ensures Inv(Resumed(s, m, t))
  {
    hide SomeoneWoken, Without, Distinct;
    WithoutIs(m.waiting, t);
    var q := Without(m.waiting, t);
    var s' := Resumed(s, m, t);
    if m.current == 0 {
      assert forall x :: Holds(s', x) == if x == t then Holds(s, t) + 1 else Holds(s, x);
      assert forall x :: At(s', x) == if x == t then Outside else At(s, x);
    } else {
      Appended(q, t);
      assert forall x :: Holds(s', x) == Holds(s, x);
      assert forall x :: At(s', x) == if x == t then Asleep else At(s, x);
    }
  }

  lemma Appended(q: seq<nat>, t: nat)
    requires Distinct(q) && t !in q
    ensures Distinct(q + [t]) && forall x :: x in q + [t] <==> x in q || x == t
  {
  }

  lemma UnlockedKeeps(s: State, m: Mutex, t: nat)
    requires MutexInv(s, m) && t > 0 && m.current == t
    ensures m.count > 0 && Holds(s, t) > 0 && Inv(Unlocked(s, m, t))
  {
    assert m.count > 0 && Holds(s, t) == m.count;
    var s' := Unlocked(s, m, t);
    assert forall x :: Holds(s', x) == if x == t then Holds(s, t) - 1 else Holds(s, x);
    if m.count == 1 && m.waiting != [] {
      var first := m.waiting[0];
      assert first in m.waiting && At(s, first) != Outside;
      assert forall x :: At(s', x) == if x == first then Woken else At(s, x);
      assert SomeoneWoken(s', m.waiting);
    } else {
      assert forall x :: At(s', x) == At(s, x);
    }
  }

  lemma WokenKeeps(s: State, t: nat)
    requires Inv(s) && t > 0 && At(s, t) == Asleep
    ensures Inv(Put(s, t, Woken))
  {
    var s' := Put(s, t, Woken);
    assert forall x :: Holds(s', x) == Holds(s, x);
    assert forall x :: At(s', x) == if x == t then Woken else At(s, x);
    if s.mutex.Some? && s.mutex.value.current == 0 && s.mutex.value.waiting != [] {
      assert SomeoneWoken(s, s.mutex.value.waiting);
      var w :| w in s.mutex.value.waiting && At(s, w) == Woken;
      assert At(s', w) == Woken;
    }
  }

  lemma DestroyedKeeps(s: State, m: Mutex)
    requires MutexInv(s, m) && m.current == 0 && m.waiting == []
    ensures m.count == 0 && Inv(s.(mutex := None))
  {
    var s' := s.(mutex := None);
    assert forall x :: Holds(s', x) == Holds(s, x) && At(s', x) == At(s, x);
  }
}
