/** The keyed lock source: one mutex, one condition variable for all keys, and a set of held keys. Every statement
    that touches shared state is a step of its own, so runs are all interleavings of all callers. */
module LockSource {
  import opened Text

  type Goroutine = int

  type HandleId = int

  /** Where a goroutine is. "Holding" places are those between taking and releasing the mutex. */
  datatype Pc =
    | Idle
    | LockEntry(key: string)      // Lock: about to take the mutex
    | LockTest(key: string)       // holding: about to look the key up
    | LockSet(key: string)        // holding: the key was free, about to write it
    | Enqueued(key: string)       // holding: in Wait, on the notify list, about to release the mutex
    | Parked(key: string)         // in Wait, asleep and not notified
    | Notified(key: string)       // in Wait, notified, about to take the mutex again
    | TryEntry(key: string) | TryTest(key: string) | TrySet(key: string)
    | CancelEntry(handle: HandleId)    // a cancel function: "next" has run, about to take the mutex
    | CancelDelete(handle: HandleId)   // holding: about to delete the key
    | CancelBroadcast             // holding: the key is deleted, about to broadcast
    | Leaving                     // holding: about to run the deferred unlock
  {
    predicate Holding() {
      LockTest? || LockSet? || Enqueued? || TryTest? || TrySet? || CancelDelete? || CancelBroadcast? || Leaving?
    }

    /** On the condition variable's notify list. */
    predicate Waiting() { Enqueued? || Parked? }

    predicate WantsMutex() { LockEntry? || Notified? || TryEntry? || CancelEntry? }

    predicate Cancelling(c: HandleId) { (CancelEntry? || CancelDelete?) && handle == c }
  }

  /** A cancel function that was handed out. A failed TryLock hands out the plain context's. A handle is live from
      the grant until its delete. */
  datatype Handle = Handle(key: string, releases: bool, live: bool, calls: nat)

  datatype State = State(
    held: set<string>, mutex: Option<Goroutine>, pc: map<Goroutine, Pc>, handles: map<HandleId, Handle>)
  {
    function At(g: Goroutine): Pc { if g in pc then pc[g] else Idle }

    function Goto(g: Goroutine, p: Pc): State { this.(pc := pc[g := p]) }
  }

  const INIT := State({}, None, map[], map[])

  datatype Event =
    | CallLock(g: Goroutine, key: string)
    | CallTryLock(g: Goroutine, key: string)
    | CallCancel(g: Goroutine, handle: HandleId)
    | Acquire(g: Goroutine)
    | Test(g: Goroutine)
    | Set(g: Goroutine, handle: HandleId)
    | Fail(g: Goroutine, handle: HandleId)
    | Delete(g: Goroutine)
    | Broadcast(g: Goroutine)
    | Release(g: Goroutine)

  /** Steps a goroutine takes by itself; the others are calls made from outside. */
  predicate Internal(e: Event) { !e.CallLock? && !e.CallTryLock? && !e.CallCancel? }

  function AfterAcquire(p: Pc): Pc
    requires p.WantsMutex()
  {
    match p
    case LockEntry(k) => LockTest(k)
    case Notified(k) => LockTest(k)
    case TryEntry(k) => TryTest(k)
    case CancelEntry(c) => CancelDelete(c)
  }

  function Woken(pc: map<Goroutine, Pc>): map<Goroutine, Pc> {
    map g | g in pc :: if pc[g].Waiting() then Notified(pc[g].key) else pc[g]
  }

  /** The state after an event, or None when it cannot happen. */
  function Step(s: State, e: Event): Option<State> {
    var p := s.At(e.g);
    match e
    case CallLock(g, k) => if p.Idle? then Some(s.Goto(g, LockEntry(k))) else None
    case CallTryLock(g, k) => if p.Idle? then Some(s.Goto(g, TryEntry(k))) else None
    case CallCancel(g, c) =>
      if !p.Idle? || c !in s.handles then None
      else
        var called := s.(handles := s.handles[c := s.handles[c].(calls := s.handles[c].calls + 1)]);
        Some(if s.handles[c].releases then called.Goto(g, CancelEntry(c)) else called)
    case Acquire(g) =>
      if p.WantsMutex() && s.mutex.None? then Some(s.(mutex := Some(g)).Goto(g, AfterAcquire(p))) else None
    case Test(g) =>
      if p.LockTest? then Some(s.Goto(g, if p.key in s.held then Enqueued(p.key) else LockSet(p.key)))
      else if p.TryTest? && p.key !in s.held then Some(s.Goto(g, TrySet(p.key)))
      else None
    case Set(g, c) =>
      if (p.LockSet? || p.TrySet?) && c !in s.handles then
        Some(s.(held := s.held + {p.key}, handles := s.handles[c := Handle(p.key, true, true, 0)]).Goto(g, Leaving))
      else None
    case Fail(g, c) =>
      if p.TryTest? && p.key in s.held && c !in s.handles then
        Some(s.(handles := s.handles[c := Handle(p.key, false, false, 0)]).Goto(g, Leaving))
      else None
    case Delete(g) =>
      if p.CancelDelete? && p.handle in s.handles then
        var h := s.handles[p.handle];
        Some(s.(held := s.held - {h.key}, handles := s.handles[p.handle := h.(live := false)]).Goto(g, CancelBroadcast))
      else None
    case Broadcast(g) =>
      if p.CancelBroadcast? then Some(s.(pc := Woken(s.pc)).Goto(g, Leaving)) else None
    case Release(g) =>
      if p.Enqueued? then Some(s.(mutex := None).Goto(g, Parked(p.key)))
      else if p.Leaving? then Some(s.(mutex := None).Goto(g, Idle))
      else None
  }

  // ---- No lost wakeup, in every run ----

  ghost predicate MutexOk(s: State) { forall g :: s.At(g).Holding() <==> s.mutex == Some(g) }

  /** The holder has deleted a key and is about to broadcast. */
  predicate Broadcasting(s: State) { s.mutex.Some? && s.At(s.mutex.value).CancelBroadcast? }

  ghost predicate WaitersOk(s: State) {
    forall g :: s.At(g).Waiting() ==> s.At(g).key in s.held || Broadcasting(s)
  }

  ghost predicate SettersOk(s: State) {
    forall g :: s.At(g).LockSet? || s.At(g).TrySet? ==> s.At(g).key !in s.held
  }

  ghost predicate CancellersOk(s: State) {
    forall g :: s.At(g).CancelEntry? || s.At(g).CancelDelete?
      ==> s.At(g).handle in s.handles && s.handles[s.At(g).handle].releases
  }

  ghost predicate Base(s: State) { MutexOk(s) && WaitersOk(s) && SettersOk(s) && CancellersOk(s) }

  lemma StepMutex(s: State, e: Event, s': State)
    requires MutexOk(s) && Step(s, e) == Some(s')
    ensures MutexOk(s')
  {
    forall g ensures s'.At(g).Holding() <==> s'.mutex == Some(g) {
      assert s.At(g).Holding() <==> s.mutex == Some(g);
      assert s.At(e.g).Holding() <==> s.mutex == Some(e.g);
    }
  }

  lemma StepWaiters(s: State, e: Event, s': State)
    requires Base(s) && Step(s, e) == Some(s')
    ensures WaitersOk(s')
  {
    forall g | s'.At(g).Waiting() ensures s'.At(g).key in s'.held || Broadcasting(s') {
      assert s.At(g).Holding() <==> s.mutex == Some(g);
      assert s.At(e.g).Holding() <==> s.mutex == Some(e.g);
    }
  }

  lemma StepSetters(s: State, e: Event, s': State)
    requires Base(s) && Step(s, e) == Some(s')
    ensures SettersOk(s')
  {
    forall g | s'.At(g).LockSet? || s'.At(g).TrySet? ensures s'.At(g).key !in s'.held {
      assert s.At(g).Holding() <==> s.mutex == Some(g);
      assert s.At(e.g).Holding() <==> s.mutex == Some(e.g);
    }
  }

  lemma StepCancellers(s: State, e: Event, s': State)
    requires CancellersOk(s) && Step(s, e) == Some(s')
    ensures CancellersOk(s')
  {
    forall g | s'.At(g).CancelEntry? || s'.At(g).CancelDelete?
      ensures s'.At(g).handle in s'.handles && s'.handles[s'.At(g).handle].releases
    {
      if g != e.g {
        assert s.At(g) == s'.At(g);
      }
    }
  }

  lemma StepBase(s: State, e: Event, s': State)
    requires Base(s) && Step(s, e) == Some(s')
    ensures Base(s')
  {
    StepMutex(s, e, s');
    StepWaiters(s, e, s');
    StepSetters(s, e, s');
    StepCancellers(s, e, s');
  }

  // ---- Mutual exclusion ----

  ghost predicate OneLivePerKey(handles: map<HandleId, Handle>) {
    forall c, d ::
      c in handles && d in handles && handles[c].live && handles[d].live && handles[c].key == handles[d].key
      ==> c == d
  }

  /** The held keys are the keys of the live handles, one each. */
  ghost predicate Ownership(s: State) {
    && (forall c :: c in s.handles && s.handles[c].live ==> s.handles[c].key in s.held)
    && (forall k :: k in s.held ==> exists c :: c in s.handles && s.handles[c].live && s.handles[c].key == k)
    && OneLivePerKey(s.handles)
  }

  /** A releasing handle is live until its one call deletes, and that call is under way exactly from then on. */
  ghost predicate CallsOk(s: State) {
    && (forall c :: c in s.handles && s.handles[c].releases ==>
          s.handles[c].calls <= 1 && (s.handles[c].calls == 0 ==> s.handles[c].live))
    && (forall c :: c in s.handles && s.handles[c].live ==> s.handles[c].releases)
    && (forall g, c :: s.At(g).Cancelling(c) ==> c in s.handles && s.handles[c].live && s.handles[c].calls == 1)
    && (forall g, h, c :: s.At(g).Cancelling(c) && s.At(h).Cancelling(c) ==> g == h)
    && (forall c :: c in s.handles && s.handles[c].live && s.handles[c].calls == 1
          ==> exists g :: s.At(g).Cancelling(c))
  }

  /** The caller's side of the bargain: a cancel function that releases is called at most once. */
  predicate AtMostOnce(s: State, e: Event) {
    e.CallCancel? && e.handle in s.handles && s.handles[e.handle].releases ==> s.handles[e.handle].calls == 0
  }

  /** A cancel function that was called before deletes a key that somebody holds. */
  predicate Harmful(s: State, e: Event) {
    && e.Delete? && s.At(e.g).CancelDelete? && s.At(e.g).handle in s.handles
    && !s.handles[s.At(e.g).handle].live && s.handles[s.At(e.g).handle].key in s.held
  }

  lemma StepOwnership(s: State, e: Event, s': State)
    requires Base(s) && Ownership(s) && !Harmful(s, e) && Step(s, e) == Some(s')
    ensures Ownership(s')
  {
    if e.Set? {
      assert s.At(e.g).key !in s.held;
      forall k | k in s'.held
        ensures exists c :: c in s'.handles && s'.handles[c].live && s'.handles[c].key == k
      {
        if k in s.held {
          var c :| c in s.handles && s.handles[c].live && s.handles[c].key == k;
          assert s'.handles[c] == s.handles[c];
        } else {
          assert s'.handles[e.handle].key == k;
        }
      }
    } else if e.Delete? && s.handles[s.At(e.g).handle].live {
      DeleteOwnership(s, s.At(e.g).handle, s');
    } else if e.Delete? {
      RepeatedCancelHarmlessIff(s, e.g, s');
    } else {
      SameOwnership(s, s');
    }
  }

  lemma DeleteOwnership(s: State, c: HandleId, s': State)
    requires Ownership(s) && c in s.handles && s.handles[c].live
    requires s'.held == s.held - {s.handles[c].key}
    requires s'.handles == s.handles[c := s.handles[c].(live := false)]
    ensures Ownership(s')
  {
    forall k | k in s'.held
      ensures exists d :: d in s'.handles && s'.handles[d].live && s'.handles[d].key == k
    {
      var d :| d in s.handles && s.handles[d].live && s.handles[d].key == k;
      assert s'.handles[d] == s.handles[d];
    }
  }

  lemma SameOwnership(s: State, s': State)
    requires Ownership(s) && s'.held == s.held
    requires forall c :: c in s.handles ==>
               c in s'.handles && s'.handles[c].live == s.handles[c].live && s'.handles[c].key == s.handles[c].key
    requires forall c :: c in s'.handles && c !in s.handles ==> !s'.handles[c].live
    ensures Ownership(s')
  {
    forall k | k in s'.held
      ensures exists d :: d in s'.handles && s'.handles[d].live && s'.handles[d].key == k
    {
      var d :| d in s.handles && s.handles[d].live && s.handles[d].key == k;
      assert d in s'.handles;
    }
  }

  /** A repeated call deletes the key a second time. That is harmless if and only if nobody holds the key by
      then. */
  lemma RepeatedCancelHarmlessIff(s: State, g: Goroutine, s': State)
    requires Ownership(s) && s.At(g).CancelDelete? && s.At(g).handle in s.handles && !s.handles[s.At(g).handle].live
    requires Step(s, Delete(g)) == Some(s')
    ensures Ownership(s') <==> s.handles[s.At(g).handle].key !in s.held
  {
    var c := s.At(g).handle;
    var k := s.handles[c].key;
    if k in s.held {
      var d :| d in s.handles && s.handles[d].live && s.handles[d].key == k;
      assert d != c && s'.handles[d].live && k !in s'.held;
    } else {
      assert s'.handles[c] == s.handles[c];
      assert s'.held == s.held;
      SameOwnership(s, s');
    }
  }

  ghost predicate CountsOk(handles: map<HandleId, Handle>) {
    && (forall c :: c in handles && handles[c].releases ==>
          handles[c].calls <= 1 && (handles[c].calls == 0 ==> handles[c].live))
    && (forall c :: c in handles && handles[c].live ==> handles[c].releases)
  }

  ghost predicate CancellingOk(s: State) {
    && (forall g, c :: s.At(g).Cancelling(c) ==> c in s.handles && s.handles[c].live && s.handles[c].calls == 1)
    && (forall g, h, c :: s.At(g).Cancelling(c) && s.At(h).Cancelling(c) ==> g == h)
  }

  ghost predicate UnderWay(s: State) {
    forall c :: c in s.handles && s.handles[c].live && s.handles[c].calls == 1 ==> exists g :: s.At(g).Cancelling(c)
  }

  lemma StepCounts(s: State, e: Event, s': State)
    requires CallsOk(s) && AtMostOnce(s, e) && Step(s, e) == Some(s')
    ensures CountsOk(s'.handles)
  {
    if e.Delete? {
      assert s.At(e.g).Cancelling(s.At(e.g).handle);
    }
  }

  lemma CancellingFrom(s: State, e: Event, s': State, g: Goroutine, c: HandleId)
    requires Step(s, e) == Some(s') && s'.At(g).Cancelling(c)
    ensures s.At(g).Cancelling(c) || (e == CallCancel(g, c) && c in s.handles && s.handles[c].releases)
  {
  }

  lemma StepCancelling(s: State, e: Event, s': State)
    requires CallsOk(s) && AtMostOnce(s, e) && Step(s, e) == Some(s')
    ensures CancellingOk(s')
  {
    forall g, c | s'.At(g).Cancelling(c) ensures c in s'.handles && s'.handles[c].live && s'.handles[c].calls == 1 {
      CancellingFrom(s, e, s', g, c);
      CancellingKept(s, e, s', g, c);
    }
    forall g, h, c | s'.At(g).Cancelling(c) && s'.At(h).Cancelling(c) ensures g == h {
      CancellingFrom(s, e, s', g, c);
      CancellingFrom(s, e, s', h, c);
    }
  }

  lemma CancellingKept(s: State, e: Event, s': State, g: Goroutine, c: HandleId)
    requires CallsOk(s) && AtMostOnce(s, e) && Step(s, e) == Some(s') && s'.At(g).Cancelling(c)
    requires s.At(g).Cancelling(c) || (e == CallCancel(g, c) && c in s.handles && s.handles[c].releases)
    ensures c in s'.handles && s'.handles[c].live && s'.handles[c].calls == 1
  {
    if e.Delete? {
      assert s.At(e.g).Cancelling(s.At(e.g).handle);
    }
  }

  lemma StepUnderWay(s: State, e: Event, s': State)
    requires CallsOk(s) && AtMostOnce(s, e) && Step(s, e) == Some(s')
    ensures UnderWay(s')
  {
    forall c | c in s'.handles && s'.handles[c].live && s'.handles[c].calls == 1
      ensures exists g :: s'.At(g).Cancelling(c)
    {
      if e.CallCancel? && e.handle == c {
        assert s'.At(e.g).Cancelling(c);
      } else {
        var g :| s.At(g).Cancelling(c);
        assert s'.At(g).Cancelling(c);
      }
    }
  }

  lemma StepCalls(s: State, e: Event, s': State)
    requires CallsOk(s) && AtMostOnce(s, e) && Step(s, e) == Some(s')
    ensures CallsOk(s')
  {
    StepCounts(s, e, s');
    StepCancelling(s, e, s');
    StepUnderWay(s, e, s');
  }

  // ---- Runs ----

  ghost predicate Run(ss: seq<State>, es: seq<Event>) {
    |ss| == |es| + 1 && ss[0] == INIT && forall i :: 0 <= i < |es| ==> Step(ss[i], es[i]) == Some(ss[i + 1])
  }

  ghost predicate CancelsOnce(ss: seq<State>, es: seq<Event>)
    requires |ss| == |es| + 1
  {
    forall i :: 0 <= i < |es| ==> AtMostOnce(ss[i], es[i])
  }

  lemma {:induction false} RunBase(ss: seq<State>, es: seq<Event>, n: nat)
    requires Run(ss, es) && n <= |es|
    ensures Base(ss[n])
  {
    if n > 0 {
      RunBase(ss, es, n - 1);
      StepBase(ss[n - 1], es[n - 1], ss[n]);
    }
  }

  lemma {:induction false} RunOwnership(ss: seq<State>, es: seq<Event>, n: nat)
    requires Run(ss, es) && CancelsOnce(ss, es) && n <= |es|
    ensures Base(ss[n]) && Ownership(ss[n]) && CallsOk(ss[n])
  {
    RunBase(ss, es, n);
    if n > 0 {
      RunOwnership(ss, es, n - 1);
      OnceIsHarmless(ss[n - 1], es[n - 1]);
      StepOwnership(ss[n - 1], es[n - 1], ss[n]);
      StepCalls(ss[n - 1], es[n - 1], ss[n]);
    }
  }

  lemma OnceIsHarmless(s: State, e: Event)
    requires CallsOk(s)
    ensures !Harmful(s, e)
  {
    if e.Delete? && s.At(e.g).CancelDelete? {
      assert s.At(e.g).Cancelling(s.At(e.g).handle);
    }
  }

  /** Over every run, whatever is called how often: the held keys are the keys of the live grants, one each, in every
      state, if and only if no cancel function that was called before deletes a key that somebody holds. */
  lemma {:induction false} OwnershipIff(ss: seq<State>, es: seq<Event>, n: nat)
    requires Run(ss, es) && n <= |es|
    ensures (forall m :: 0 <= m <= n ==> Ownership(ss[m])) <==> (forall m :: 0 <= m < n ==> !Harmful(ss[m], es[m]))
  {
    if n > 0 {
      OwnershipIff(ss, es, n - 1);
      RunBase(ss, es, n - 1);
      var s, e, s' := ss[n - 1], es[n - 1], ss[n];
      if Ownership(s) {
        if Harmful(s, e) {
          RepeatedCancelHarmlessIff(s, e.g, s');
        } else {
          StepOwnership(s, e, s');
        }
      }
    }
  }

  /** No lost wakeup, however cancel functions are used: a goroutine asleep and not notified for a key means the
      key is held, or the broadcast that will wake it is the holder's next statement. Between critical sections
      the key is held. */
  lemma NoLostWakeup(ss: seq<State>, es: seq<Event>, n: nat, g: Goroutine)
    requires Run(ss, es) && n <= |es| && ss[n].At(g).Parked?
    ensures ss[n].At(g).key in ss[n].held || Broadcasting(ss[n])
    ensures ss[n].mutex.None? ==> ss[n].At(g).key in ss[n].held
  {
    RunBase(ss, es, n);
    assert ss[n].At(g).Waiting();
  }

  /** The broadcast wakes every sleeper, of whatever key: all of them will look their key up again. */
  lemma BroadcastWakesAll(s: State, g: Goroutine, s': State, h: Goroutine)
    requires Base(s) && Step(s, Broadcast(g)) == Some(s') && s.At(h).Parked?
    ensures s'.At(h) == Notified(s.At(h).key)
  {
    assert s.At(g).Holding();
  }

  /** Whoever sleeps when the broadcast comes, whatever its key, does not go back to sleep without looking its key up
      again. */
  lemma {:induction false} WokenLooksAgain(ss: seq<State>, es: seq<Event>, m: nat, n: nat, h: Goroutine)
    requires Run(ss, es) && m < n <= |es| && es[m].Broadcast? && ss[m].At(h).Parked?
    ensures ss[n].At(h) == Notified(ss[m].At(h).key) || exists k :: m < k < n && es[k] == Acquire(h)
  {
    if n == m + 1 {
      RunBase(ss, es, m);
      BroadcastWakesAll(ss[m], es[m].g, ss[n], h);
    } else {
      WokenLooksAgain(ss, es, m, n - 1, h);
    }
  }

  /** Mutual exclusion over every run in which no releasing cancel function is called twice: the held keys are
      exactly the keys with a live grant, and no key has two. */
  lemma MutualExclusion(ss: seq<State>, es: seq<Event>, n: nat, key: string)
    requires Run(ss, es) && CancelsOnce(ss, es) && n <= |es|
    ensures var h := ss[n].handles;
            && (key in ss[n].held <==> exists c :: c in h && h[c].live && h[c].key == key)
            && forall c, d :: c in h && d in h && h[c].live && h[d].live && h[c].key == h[d].key ==> c == d
  {
    RunOwnership(ss, es, n);
  }

  /** What the cancel function of a failed TryLock does in any state: nothing to the lock. */
  lemma FailedTryReleasesNothing(s: State, g: Goroutine, c: HandleId, s': State)
    requires c in s.handles && !s.handles[c].releases && Step(s, CallCancel(g, c)) == Some(s')
    ensures s'.held == s.held && s'.mutex == s.mutex && s'.pc == s.pc
    ensures forall d :: d in s.handles ==> d in s'.handles && s'.handles[d].live == s.handles[d].live
  {
  }

  /** Nor does it ever come to delete a key, however often it is called. */
  lemma {:induction false} FailedTryNeverDeletes(ss: seq<State>, es: seq<Event>, m: nat, n: nat, c: HandleId)
    requires Run(ss, es) && m < n <= |es| && es[m].Fail? && es[m].handle == c
    ensures c in ss[n].handles && !ss[n].handles[c].releases && forall g :: !ss[n].At(g).Cancelling(c)
  {
    if n > m + 1 {
      FailedTryNeverDeletes(ss, es, m, n - 1, c);
    }
    RunBase(ss, es, n);
  }

  // ---- Progress ----

  ghost predicate Enabled(s: State, e: Event) { Step(s, e).Some? }

  function NextOf(s: State, g: Goroutine, unused: HandleId): Event {
    match s.At(g)
    case LockTest(_) => Test(g)
    case TryTest(k) => if k in s.held then Fail(g, unused) else Test(g)
    case LockSet(_) => Set(g, unused)
    case TrySet(_) => Set(g, unused)
    case CancelDelete(_) => Delete(g)
    case CancelBroadcast => Broadcast(g)
    case Enqueued(_) => Release(g)
    case Leaving => Release(g)
    case _ => Acquire(g)
  }

  /** The key is granted and its cancel function has not been called. */
  ghost predicate Unreleased(s: State, key: string) {
    exists c :: c in s.handles && s.handles[c].live && s.handles[c].calls == 0 && s.handles[c].key == key
  }

  lemma Sleeping(s: State, g: Goroutine)
    requires Base(s) && Ownership(s) && CallsOk(s) && s.mutex.None? && !s.At(g).Idle?
    requires forall h :: !s.At(h).WantsMutex()
    ensures s.At(g).Parked? && Unreleased(s, s.At(g).key)
  {
    assert !s.At(g).Holding();
    assert s.At(g).Waiting();
    var c :| c in s.handles && s.handles[c].live && s.handles[c].key == s.At(g).key;
    assert !(exists h :: s.At(h).Cancelling(c));
  }

  /** The system never gets stuck: whenever some goroutine is inside a call, either a goroutine can take its next
      step, or every goroutine inside a call sleeps for a key whose grant has not been cancelled yet. */
  lemma NeverStuck(ss: seq<State>, es: seq<Event>, n: nat, unused: HandleId)
    requires Run(ss, es) && CancelsOnce(ss, es) && n <= |es| && unused !in ss[n].handles
    ensures var s := ss[n];
            || (exists e :: Internal(e) && Enabled(s, e))
            || (forall g :: !s.At(g).Idle? ==> s.At(g).Parked? && Unreleased(s, s.At(g).key))
  {
    RunOwnership(ss, es, n);
    var s := ss[n];
    if s.mutex.Some? {
      var h := s.mutex.value;
      assert s.At(h).Holding();
      assert Enabled(s, NextOf(s, h, unused));
    } else if g :| s.At(g).WantsMutex() {
      assert Enabled(s, Acquire(g));
    } else {
      forall g | !s.At(g).Idle? ensures s.At(g).Parked? && Unreleased(s, s.At(g).key) {
        Sleeping(s, g);
      }
    }
  }

  // ---- Calling a cancel function again ----

  function Steps(s: State, es: seq<Event>): Option<State>
    decreases |es|
  {
    if es == [] then Some(s)
    else
      match Step(s, es[0])
      case None => None
      case Some(t) => Steps(t, es[1..])
  }

  /** After a harmful one, the next TryLock of any idle goroutine succeeds on a key that is granted already. */
  lemma RepeatedCancelDoubleGrant(s: State, h: Goroutine, d: HandleId, unused: HandleId)
    requires s.mutex.None? && s.At(h).Idle? && unused !in s.handles
    requires d in s.handles && s.handles[d].live && s.handles[d].key !in s.held
    ensures var k := s.handles[d].key;
            var r := Steps(s, [CallTryLock(h, k), Acquire(h), Test(h), Set(h, unused), Release(h)]);
            && r.Some? && d in r.value.handles && unused in r.value.handles && d != unused
            && r.value.handles[d].live && r.value.handles[unused].live
            && r.value.handles[d].key == r.value.handles[unused].key == k
  {
    var k := s.handles[d].key;
    var s1 := s.Goto(h, TryEntry(k));
    var s2 := s1.(mutex := Some(h)).Goto(h, TryTest(k));
    var s3 := s2.Goto(h, TrySet(k));
    var s4 := s3.(held := s3.held + {k}, handles := s3.handles[unused := Handle(k, true, true, 0)]).Goto(h, Leaving);
    var s5 := s4.(mutex := None).Goto(h, Idle);
    assert Steps(s4, [Release(h)]) == Some(s5);
    assert Steps(s3, [Set(h, unused), Release(h)]) == Some(s5);
    assert Steps(s2, [Test(h), Set(h, unused), Release(h)]) == Some(s5);
    assert Steps(s1, [Acquire(h), Test(h), Set(h, unused), Release(h)]) == Some(s5);
  }

  // ---- The critical sections, run without interruption ----

  lemma Steps3(s: State, a: Event, t: State, b: Event, u: State, c: Event, v: State)
    requires Step(s, a) == Some(t) && Step(t, b) == Some(u) && Step(u, c) == Some(v)
    ensures Steps(s, [a, b, c]) == Some(v)
  {
    assert [a, b, c][1..] == [b, c] && [b, c][1..] == [c];
    assert Steps(u, [c]) == Some(v) by { assert [c][1..] == []; }
    assert Steps(t, [b, c]) == Some(v);
  }

  lemma Steps4(s: State, a: Event, t: State, b: Event, u: State, c: Event, v: State, d: Event, w: State)
    requires Step(s, a) == Some(t) && Step(t, b) == Some(u) && Step(u, c) == Some(v) && Step(v, d) == Some(w)
    ensures Steps(s, [a, b, c, d]) == Some(w)
  {
    assert [a, b, c, d][1..] == [b, c, d];
    Steps3(t, b, u, c, v, d, w);
  }

  /** A critical section that takes the key, state by state. */
  function Taking(s: State, g: Goroutine, c: HandleId): (State, State, State, State)
    requires s.At(g).WantsMutex() && !s.At(g).CancelEntry?
  {
    var key := s.At(g).key;
    var s1 := s.(mutex := Some(g)).Goto(g, AfterAcquire(s.At(g)));
    var s2 := s1.Goto(g, if s.At(g).TryEntry? then TrySet(key) else LockSet(key));
    var s3 := s2.(held := s2.held + {key}, handles := s2.handles[c := Handle(key, true, true, 0)]).Goto(g, Leaving);
    (s1, s2, s3, s3.(mutex := None).Goto(g, Idle))
  }

  lemma TakingSteps(s: State, g: Goroutine, c: HandleId)
    requires s.mutex.None? && s.At(g).WantsMutex() && !s.At(g).CancelEntry?
    requires s.At(g).key !in s.held && c !in s.handles
    ensures Steps(s, [Acquire(g), Test(g), Set(g, c), Release(g)]) == Some(Taking(s, g, c).3)
    ensures Taking(s, g, c).3 == State(s.held + {s.At(g).key}, None, s.pc[g := Idle],
                                       s.handles[c := Handle(s.At(g).key, true, true, 0)])
  {
    var (s1, s2, s3, s4) := Taking(s, g, c);
    Steps4(s, Acquire(g), s1, Test(g), s2, Set(g, c), s3, Release(g), s4);
  }

  // ---- A run in which a repeated cancel does harm ----

  lemma {:induction false} StepsConcat(s: State, a: seq<Event>, b: seq<Event>)
    requires Steps(s, a).Some?
    ensures Steps(s, a + b) == Steps(Steps(s, a).value, b)
    decreases |a|
  {
    if a == [] {
      assert a + b == b;
    } else {
      assert (a + b)[1..] == a[1..] + b;
      StepsConcat(Step(s, a[0]).value, a[1..], b);
    }
  }

  lemma {:induction false} StepsAreRun(s: State, es: seq<Event>) returns (ss: seq<State>)
    requires Steps(s, es).Some?
    ensures |ss| == |es| + 1 && ss[0] == s && ss[|es|] == Steps(s, es).value
    ensures forall i :: 0 <= i < |es| ==> Step(ss[i], es[i]) == Some(ss[i + 1])
    decreases |es|
  {
    if es == [] {
      ss := [s];
    } else {
      var rest := StepsAreRun(Step(s, es[0]).value, es[1..]);
      ss := [s] + rest;
    }
  }

  /** No call is under way. */
  ghost predicate Quiet(s: State) { s.mutex.None? && forall g :: s.At(g).Idle? }

  function GrantEvents(g: Goroutine, key: string, c: HandleId): seq<Event> {
    [CallTryLock(g, key)] + [Acquire(g), Test(g), Set(g, c), Release(g)]
  }

  function CancelEvents(g: Goroutine, c: HandleId): seq<Event> {
    [CallCancel(g, c)] + [Acquire(g), Delete(g), Broadcast(g), Release(g)]
  }

  lemma OneStep(s: State, e: Event, t: State)
    requires Step(s, e) == Some(t)
    ensures Steps(s, [e]) == Some(t)
  {
    assert [e][1..] == [];
  }

  lemma GrantRun(s: State, g: Goroutine, key: string, c: HandleId) returns (t: State)
    requires Quiet(s) && key !in s.held && c !in s.handles
    ensures Steps(s, GrantEvents(g, key, c)) == Some(t) && Quiet(t)
    ensures t.held == s.held + {key} && t.handles == s.handles[c := Handle(key, true, true, 0)]
  {
    var called := s.Goto(g, TryEntry(key));
    OneStep(s, CallTryLock(g, key), called);
    TakingSteps(called, g, c);
    t := Taking(called, g, c).3;
    StepsConcat(s, [CallTryLock(g, key)], [Acquire(g), Test(g), Set(g, c), Release(g)]);
    forall h ensures t.At(h).Idle? {
      assert s.At(h).Idle?;
    }
  }

  lemma CancelRun(s: State, g: Goroutine, c: HandleId) returns (t: State)
    requires Quiet(s) && c in s.handles && s.handles[c].releases
    ensures Steps(s, CancelEvents(g, c)) == Some(t) && Quiet(t)
    ensures t.held == s.held - {s.handles[c].key}
    ensures t.handles == s.handles[c := s.handles[c].(live := false, calls := s.handles[c].calls + 1)]
  {
    var h := s.handles[c];
    var s0 := s.(handles := s.handles[c := h.(calls := h.calls + 1)]).Goto(g, CancelEntry(c));
    OneStep(s, CallCancel(g, c), s0);
    var s1 := s0.(mutex := Some(g)).Goto(g, CancelDelete(c));
    var s2 := s1.(held := s1.held - {h.key}, handles := s1.handles[c := s1.handles[c].(live := false)])
                .Goto(g, CancelBroadcast);
    var s3 := s2.(pc := Woken(s2.pc)).Goto(g, Leaving);
    t := s3.(mutex := None).Goto(g, Idle);
    Steps4(s0, Acquire(g), s1, Delete(g), s2, Broadcast(g), s3, Release(g), t);
    StepsConcat(s, [CallCancel(g, c)], [Acquire(g), Delete(g), Broadcast(g), Release(g)]);
    forall x ensures t.At(x).Idle? {
      assert s.At(x).Idle?;
    }
  }

  // ---- A run in which a key changes hands ----

  lemma WaitRun(s: State, h: Goroutine, key: string) returns (t: State)
    requires Quiet(s) && key in s.held
    ensures Steps(s, [CallLock(h, key), Acquire(h), Test(h), Release(h)]) == Some(t)
    ensures t == s.Goto(h, Parked(key))
  {
    var s1 := s.Goto(h, LockEntry(key));
    var s2 := s1.(mutex := Some(h)).Goto(h, LockTest(key));
    var s3 := s2.Goto(h, Enqueued(key));
    t := s3.(mutex := None).Goto(h, Parked(key));
    Steps4(s, CallLock(h, key), s1, Acquire(h), s2, Test(h), s3, Release(h), t);
  }

  /** A TryLock of a held key hands out a cancel function that releases nothing, and leaves the key held. */
  lemma RefusedRun(s: State, g: Goroutine, key: string, c: HandleId) returns (t: State)
    requires Quiet(s) && key in s.held && c !in s.handles
    ensures Steps(s, [CallTryLock(g, key), Acquire(g), Fail(g, c), Release(g)]) == Some(t)
    ensures Quiet(t) && t.held == s.held && t.handles == s.handles[c := Handle(key, false, false, 0)]
  {
    var s1 := s.Goto(g, TryEntry(key));
    var s2 := s1.(mutex := Some(g)).Goto(g, TryTest(key));
    var s3 := s2.(handles := s2.handles[c := Handle(key, false, false, 0)]).Goto(g, Leaving);
    t := s3.(mutex := None).Goto(g, Idle);
    Steps4(s, CallTryLock(g, key), s1, Acquire(g), s2, Fail(g, c), s3, Release(g), t);
    forall x ensures t.At(x).Idle? {
      assert s.At(x).Idle?;
    }
  }

  lemma CancelWakes(s: State, g: Goroutine, c: HandleId, h: Goroutine, key: string) returns (t: State)
    requires s.mutex.None? && s.At(g).Idle? && g != h && s.At(h) == Parked(key)
    requires c in s.handles && s.handles[c].releases
    ensures Steps(s, CancelEvents(g, c)) == Some(t)
    ensures t.mutex.None? && t.At(h) == Notified(key) && t.held == s.held - {s.handles[c].key}
    ensures t.handles == s.handles[c := s.handles[c].(live := false, calls := s.handles[c].calls + 1)]
    ensures forall x :: s.At(x).Idle? ==> t.At(x).Idle?
  {
    var k := s.handles[c];
    var s0 := s.(handles := s.handles[c := k.(calls := k.calls + 1)]).Goto(g, CancelEntry(c));
    OneStep(s, CallCancel(g, c), s0);
    var s1 := s0.(mutex := Some(g)).Goto(g, CancelDelete(c));
    var s2 := s1.(held := s1.held - {k.key}, handles := s1.handles[c := s1.handles[c].(live := false)])
                .Goto(g, CancelBroadcast);
    var s3 := s2.(pc := Woken(s2.pc)).Goto(g, Leaving);
    t := s3.(mutex := None).Goto(g, Idle);
    Steps4(s0, Acquire(g), s1, Delete(g), s2, Broadcast(g), s3, Release(g), t);
    StepsConcat(s, [CallCancel(g, c)], [Acquire(g), Delete(g), Broadcast(g), Release(g)]);
  }

  lemma StillQuiet(s: State, s1: State, s2: State, t: State, h: Goroutine, key: string)
    requires Quiet(s) && s1 == s.Goto(h, Parked(key)) && t.mutex.None? && t.pc == s2.pc[h := Idle]
    requires forall x :: s1.At(x).Idle? ==> s2.At(x).Idle?
    ensures Quiet(t)
  {
    forall x ensures t.At(x).Idle? {
      assert s.At(x).Idle?;
      assert x != h ==> s1.At(x) == s.At(x) && s2.At(x).Idle?;
    }
  }

  /** A goroutine that calls Lock on a held key waits, is woken when the key is given up, and takes it. */
  lemma KeyChangesHands(s: State, g: Goroutine, c: HandleId, h: Goroutine, d: HandleId) returns (t: State)
    requires Quiet(s) && g != h && c in s.handles && s.handles[c].releases && d !in s.handles
    requires s.handles[c].key in s.held
    ensures var key := s.handles[c].key;
            Steps(s, [CallLock(h, key), Acquire(h), Test(h), Release(h)] + CancelEvents(g, c)
                     + [Acquire(h), Test(h), Set(h, d), Release(h)]) == Some(t)
    ensures Quiet(t) && t.held == s.held
    ensures t.handles == s.handles[c := s.handles[c].(live := false, calls := s.handles[c].calls + 1)]
                                  [d := Handle(s.handles[c].key, true, true, 0)]
  {
    var key := s.handles[c].key;
    var wait := [CallLock(h, key), Acquire(h), Test(h), Release(h)];
    var s1 := WaitRun(s, h, key);
    assert s.At(g).Idle? && s1.At(g) == s.At(g);
    var s2 := CancelWakes(s1, g, c, h, key);
    TakingSteps(s2, h, d);
    t := Taking(s2, h, d).3;
    StepsConcat(s, wait, CancelEvents(g, c));
    StepsConcat(s, wait + CancelEvents(g, c), [Acquire(h), Test(h), Set(h, d), Release(h)]);
    StillQuiet(s, s1, s2, t, h, key);
  }

  // ---- A run in which a key is granted twice ----

  /** Two live grants of one key. */
  ghost predicate GrantedTwice(s: State, c: HandleId, d: HandleId, key: string) {
    && c != d && c in s.handles && s.handles[c].live && s.handles[c].key == key
    && d in s.handles && s.handles[d].live && s.handles[d].key == key
  }

  lemma GrantedTwiceBreaks(s: State, c: HandleId, d: HandleId, key: string)
    requires GrantedTwice(s, c, d, key)
    ensures !Ownership(s)
  {
    assert s.handles[c].live && s.handles[d].live && s.handles[c].key == s.handles[d].key;
  }

  lemma DoubleGrantSteps(g: Goroutine, h: Goroutine, key: string) returns (es: seq<Event>, s: State)
    ensures Steps(INIT, es) == Some(s) && GrantedTwice(s, 2, 3, key)
  {
    assert Quiet(INIT);
    var s1 := GrantRun(INIT, g, key, 1);
    var s2 := CancelRun(s1, g, 1);
    var s3 := GrantRun(s2, h, key, 2);
    var s4 := CancelRun(s3, g, 1);
    s := GrantRun(s4, g, key, 3);
    var a, b, c := GrantEvents(g, key, 1), CancelEvents(g, 1), GrantEvents(h, key, 2);
    var d := GrantEvents(g, key, 3);
    StepsConcat(INIT, a, b);
    StepsConcat(INIT, a + b, c);
    StepsConcat(INIT, a + b + c, b);
    StepsConcat(INIT, a + b + c + b, d);
    es := a + b + c + b + d;
    assert s.handles[2] == s3.handles[2];
  }

  /** A harmful repeat is reachable: one goroutine takes a key and gives it up, a second takes it, the first calls
      its cancel function again. The second still has its grant, but the key is free and is granted once more. */
  lemma DoubleGrantReachable(g: Goroutine, h: Goroutine, key: string) returns (ss: seq<State>, es: seq<Event>)
    ensures Run(ss, es) && !CancelsOnce(ss, es)
    ensures GrantedTwice(ss[|es|], 2, 3, key)
  {
    var s;
    es, s := DoubleGrantSteps(g, h, key);
    ss := StepsAreRun(INIT, es);
    GrantedTwiceBreaks(ss[|es|], 2, 3, key);
    if CancelsOnce(ss, es) {
      RunOwnership(ss, es, |es|);
    }
  }

  lemma UnusedHandle(handles: map<HandleId, Handle>)
    ensures exists c: HandleId :: c !in handles
  {
    var b := AboveAll(handles.Keys);
    assert b !in handles;
  }

  lemma {:induction false} AboveAll(s: set<HandleId>) returns (b: HandleId)
    ensures forall c :: c in s ==> c < b
    decreases s
  {
    if x: HandleId :| x in s {
      var d := AboveAll(s - {x});
      b := if x < d then d else x + 1;
      assert forall c :: c in s ==> c == x || c in s - {x};
    } else {
      b := 0;
    }
  }

  class LocalLockSource {
    var m: set<string>
    var mutex: Option<Goroutine>
    var pc: map<Goroutine, Pc>
    var handles: map<HandleId, Handle>

    function S(): State
      reads this
    {
      State(m, mutex, pc, handles)
    }

    constructor ()
      ensures S() == INIT
    {
      m, mutex, pc, handles := {}, None, map[], map[];
    }

    /** Lock from taking the mutex, for the first time or after a notification, to giving it up: by waiting when
        the key is held, by returning with the key otherwise. */
    method Lock(g: Goroutine) returns (granted: Option<HandleId>)
      requires mutex.None? && (S().At(g).LockEntry? || S().At(g).Notified?)
      modifies this
      ensures granted.Some? <==> old(S().At(g)).key !in old(m)
      ensures granted.None? ==> Steps(old(S()), [Acquire(g), Test(g), Release(g)]) == Some(S())
      ensures granted.Some? ==>
                Steps(old(S()), [Acquire(g), Test(g), Set(g, granted.value), Release(g)]) == Some(S())
    {
      var key := S().At(g).key;
      mutex, pc := Some(g), pc[g := LockTest(key)];
      if key in m {
        ghost var s1 := S();
        pc := pc[g := Enqueued(key)];
        ghost var s2 := S();
        mutex, pc := None, pc[g := Parked(key)];
        Steps3(old(S()), Acquire(g), s1, Test(g), s2, Release(g), S());
        return None;
      }
      pc := pc[g := LockSet(key)];
      m := m + {key};
      UnusedHandle(handles);
      var c: HandleId :| c !in handles;
      TakingSteps(old(S()), g, c);
      handles, pc := handles[c := Handle(key, true, true, 0)], pc[g := Leaving];
      mutex, pc := None, pc[g := Idle];
      granted := Some(c);
    }

    /** TryLock: never waits; hands out a cancel function that releases exactly when it took the key. */
    method TryLock(g: Goroutine) returns (c: HandleId)
      requires mutex.None? && S().At(g).TryEntry?
      modifies this
      ensures c !in old(handles) && c in handles
      ensures handles[c].releases <==> old(S().At(g)).key !in old(m)
      ensures !handles[c].releases ==> Steps(old(S()), [Acquire(g), Fail(g, c), Release(g)]) == Some(S())
      ensures handles[c].releases ==> Steps(old(S()), [Acquire(g), Test(g), Set(g, c), Release(g)]) == Some(S())
    {
      var key := S().At(g).key;
      UnusedHandle(handles);
      c :| c !in handles;
      mutex, pc := Some(g), pc[g := TryTest(key)];
      if key in m {
        ghost var s1 := S();
        handles, pc := handles[c := Handle(key, false, false, 0)], pc[g := Leaving];
        ghost var s2 := S();
        mutex, pc := None, pc[g := Idle];
        Steps3(old(S()), Acquire(g), s1, Fail(g, c), s2, Release(g), S());
        return;
      }
      pc := pc[g := TrySet(key)];
      TakingSteps(old(S()), g, c);
      m := m + {key};
      handles, pc := handles[c := Handle(key, true, true, 0)], pc[g := Leaving];
      mutex, pc := None, pc[g := Idle];
    }

    /** A releasing cancel function: delete the key and wake every waiter. */
    method Cancel(g: Goroutine)
      requires mutex.None? && S().At(g).CancelEntry? && S().At(g).handle in handles
      modifies this
      ensures Steps(old(S()), [Acquire(g), Delete(g), Broadcast(g), Release(g)]) == Some(S())
    {
      var c := S().At(g).handle;
      ghost var s0 := S();
      mutex, pc := Some(g), pc[g := CancelDelete(c)];
      ghost var s1 := S();
      m := m - {handles[c].key};
      handles, pc := handles[c := handles[c].(live := false)], pc[g := CancelBroadcast];
      ghost var s2 := S();
      pc := Woken(pc)[g := Leaving];
      ghost var s3 := S();
      mutex, pc := None, pc[g := Idle];
      Steps4(s0, Acquire(g), s1, Delete(g), s2, Broadcast(g), s3, Release(g), S());
    }
  }
}
