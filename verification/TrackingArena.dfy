/** The arena that remembers what went wrong: realizers leave their errors in a list, the first Close joins that
    list with the wrapped arena's error, and every Close reports the result. Realizers and callers run
    concurrently; sync.Once blocks later callers until the first is through. */
module TrackingArena {
  import opened Text
  import opened Errors

  type CallId = int

  datatype Once = NotDone | Running(holder: CallId) | Done

  /** Where a call of Close is: before the once, inside it, inside it with the wrapped arena closed, past it, or
      back at its caller. */
  datatype Call = AtOnce | Inside | Storing(arenaErr: Option<Error>) | Past | Returned(err: Option<Error>)

  datatype State = State(recorded: seq<Error>, inHand: multiset<Error>, once: Once, closeErr: Option<Error>,
                         calls: map<CallId, Call>, innerCloses: nat)

  const INIT := State([], multiset{}, NotDone, None, map[], 0)

  datatype Event =
    | RealizerCloses(err: Option<Error>)
    | Record(e: Error)
    | CallClose(c: CallId)
    | Enter(c: CallId)
    | CloseInner(c: CallId, err: Option<Error>)
    | Store(c: CallId)
    | Pass(c: CallId)
    | Return(c: CallId)

  function Somes(es: seq<Error>): (r: seq<Option<Error>>)
    ensures |r| == |es| && forall i :: 0 <= i < |es| ==> r[i] == Some(es[i])
  {
    if es == [] then [] else [Some(es[0])] + Somes(es[1..])
  }

  /** What the first Close stores. */
  function Stored(recorded: seq<Error>, arenaErr: Option<Error>): Option<Error> {
    JoinErrors(Somes(recorded) + [arenaErr])
  }

  function CallAt(s: State, c: CallId): Option<Call> { if c in s.calls then Some(s.calls[c]) else None }

  function Step(s: State, e: Event): Option<State> {
    match e
    case RealizerCloses(err) =>
      Some(if err.Some? then s.(inHand := s.inHand + multiset{err.value}) else s)
    case Record(x) =>
      if x !in s.inHand then None
      else Some(s.(recorded := s.recorded + [x], inHand := s.inHand - multiset{x}))
    case CallClose(c) => if c in s.calls then None else Some(s.(calls := s.calls[c := AtOnce]))
    case Enter(c) =>
      if CallAt(s, c) != Some(AtOnce) || s.once != NotDone then None
      else Some(s.(once := Running(c), calls := s.calls[c := Inside]))
    case CloseInner(c, err) =>
      if CallAt(s, c) != Some(Inside) then None
      else Some(s.(calls := s.calls[c := Storing(err)], innerCloses := s.innerCloses + 1))
    case Store(c) =>
      if CallAt(s, c).None? || !s.calls[c].Storing? then None
      else Some(s.(closeErr := Stored(s.recorded, s.calls[c].arenaErr), once := Done, calls := s.calls[c := Past]))
    case Pass(c) =>
      if CallAt(s, c) != Some(AtOnce) || s.once != Done then None
      else Some(s.(calls := s.calls[c := Past]))
    case Return(c) =>
      if CallAt(s, c) != Some(Past) then None
      else Some(s.(calls := s.calls[c := Returned(s.closeErr)]))
  }

  function Steps(s: State, es: seq<Event>): Option<State>
    decreases |es|
  {
    if es == [] then Some(s)
    else
      match Step(s, es[0])
      case None => None
      case Some(t) => Steps(t, es[1..])
  }

  ghost predicate Run(ss: seq<State>, es: seq<Event>) {
    && |ss| == |es| + 1 && ss[0] == INIT
    && forall i :: 0 <= i < |es| ==> Step(ss[i], es[i]) == Some(ss[i + 1])
  }

  // ---- One closer ----

  predicate InsideOnce(k: Call) { k.Inside? || k.Storing? }

  predicate PastOnce(k: Call) { k.Past? || k.Returned? }

  ghost predicate Inv(s: State) {
    && (s.once.Running? ==> s.once.holder in s.calls)
    && (forall c :: c in s.calls && InsideOnce(s.calls[c]) ==> s.once == Running(c))
    && (s.once.Running? ==> InsideOnce(s.calls[s.once.holder]))
    && (forall c :: c in s.calls && PastOnce(s.calls[c]) ==> s.once == Done)
    && (forall c :: c in s.calls && s.calls[c].Returned? ==> s.calls[c].err == s.closeErr)
    && s.innerCloses == (match s.once
                         case NotDone => 0
                         case Running(c) => if s.calls[c].Inside? then 0 else 1
                         case Done => 1)
  }

  lemma {:induction false} RunInv(ss: seq<State>, es: seq<Event>, n: nat)
    requires Run(ss, es) && n <= |es|
    ensures Inv(ss[n])
  {
    if n > 0 {
      RunInv(ss, es, n - 1);
      StepInv(ss[n - 1], es[n - 1], ss[n]);
    }
  }

  lemma StepInv(s: State, e: Event, s': State)
    requires Inv(s) && Step(s, e) == Some(s')
    ensures Inv(s')
  {
  }

  /** After the first Close stored its result, that result stands. */
  lemma {:induction false} ResultStands(ss: seq<State>, es: seq<Event>, m: nat, n: nat)
    requires Run(ss, es) && m <= n <= |es| && ss[m].once == Done
    ensures ss[n].once == Done && ss[n].closeErr == ss[m].closeErr && ss[n].innerCloses == 1
  {
    RunInv(ss, es, n);
    if m < n {
      ResultStands(ss, es, m, n - 1);
      RunInv(ss, es, n - 1);
      var s, e := ss[n - 1], es[n - 1];
      assert e.Store? ==> InsideOnce(s.calls[e.c]);
    }
  }

  /** Any two calls of Close, at any two moments of a run, report the same error, and the wrapped arena has been
      closed exactly once when the first of them reports. */
  lemma EveryCloseAgrees(ss: seq<State>, es: seq<Event>, m: nat, c: CallId, n: nat, d: CallId)
    requires Run(ss, es) && m <= n <= |es|
    requires c in ss[m].calls && ss[m].calls[c].Returned? && d in ss[n].calls && ss[n].calls[d].Returned?
    ensures ss[m].calls[c].err == ss[n].calls[d].err
    ensures ss[m].innerCloses == ss[n].innerCloses == 1
  {
    RunInv(ss, es, m);
    RunInv(ss, es, n);
    ResultStands(ss, es, m, n);
  }

  /** No caller is blocked for good: whoever has not returned can move, or the caller inside the once can. */
  lemma NeverStuck(ss: seq<State>, es: seq<Event>, n: nat, c: CallId, err: Option<Error>)
    requires Run(ss, es) && n <= |es| && c in ss[n].calls && !ss[n].calls[c].Returned?
    ensures var s := ss[n];
            || Step(s, Enter(c)).Some? || Step(s, Pass(c)).Some? || Step(s, Return(c)).Some?
            || (s.once.Running?
                && (Step(s, CloseInner(s.once.holder, err)).Some? || Step(s, Store(s.once.holder)).Some?))
  {
    RunInv(ss, es, n);
  }

  // ---- What is reported ----

  function ErrorOf(e: Event): seq<Error> { if e.RealizerCloses? && e.err.Some? then [e.err.value] else [] }

  /** The errors the wrapped realizers returned, in order. */
  function RealizerErrors(es: seq<Event>): seq<Error> {
    if es == [] then [] else RealizerErrors(es[..|es| - 1]) + ErrorOf(es[|es| - 1])
  }

  lemma ErrorsStep(es: seq<Event>, n: nat)
    requires 0 < n <= |es|
    ensures RealizerErrors(es[..n]) == RealizerErrors(es[..n - 1]) + ErrorOf(es[n - 1])
  {
    assert es[..n][..n - 1] == es[..n - 1];
  }

  lemma StepAccounted(s: State, e: Event, s': State)
    requires Step(s, e) == Some(s')
    ensures multiset(s'.recorded) + s'.inHand == multiset(s.recorded) + s.inHand + multiset(ErrorOf(e))
  {
    if e.Record? {
      assert multiset(s'.recorded) == multiset(s.recorded) + multiset{e.e};
    }
  }

  /** An error a realizer returned is either still in its caller's hands or recorded, once. */
  lemma {:induction false} ErrorsAccounted(ss: seq<State>, es: seq<Event>, n: nat)
    requires Run(ss, es) && n <= |es|
    ensures multiset(ss[n].recorded) + ss[n].inHand == multiset(RealizerErrors(es[..n]))
  {
    if n > 0 {
      ErrorsAccounted(ss, es, n - 1);
      StepAccounted(ss[n - 1], es[n - 1], ss[n]);
      ErrorsStep(es, n);
    }
  }

  lemma {:induction false} StoreFixesResult(ss: seq<State>, es: seq<Event>, at: nat, n: nat, c: CallId)
    requires Run(ss, es) && at < n <= |es| && es[at] == Store(c)
    ensures c in ss[at].calls && ss[at].calls[c].Storing?
    ensures ss[n].closeErr == Stored(ss[at].recorded, ss[at].calls[c].arenaErr)
  {
    ResultStands(ss, es, at + 1, n);
  }

  lemma {:induction false} SomeStore(ss: seq<State>, es: seq<Event>, n: nat) returns (at: nat, c: CallId)
    requires Run(ss, es) && n <= |es| && ss[n].once == Done
    ensures at < n && es[at] == Store(c)
  {
    var last := es[n - 1];
    if last.Store? {
      at, c := n - 1, last.c;
    } else {
      at, c := SomeStore(ss, es, n - 1);
    }
  }

  /** Every caller is told the join of the errors recorded when the first Close stored its result and the wrapped
      arena's error, and nothing else. */
  lemma CloseReports(ss: seq<State>, es: seq<Event>, n: nat, c: CallId) returns (at: nat, first: CallId)
    requires Run(ss, es) && n <= |es| && c in ss[n].calls && ss[n].calls[c].Returned?
    ensures at < n && es[at] == Store(first) && first in ss[at].calls && ss[at].calls[first].Storing?
    ensures ss[n].calls[c].err == Stored(ss[at].recorded, ss[at].calls[first].arenaErr)
  {
    RunInv(ss, es, n);
    at, first := SomeStore(ss, es, n);
    StoreFixesResult(ss, es, at, n, first);
  }

  lemma {:induction false} ErrorsGrow(es: seq<Event>, m: nat, n: nat)
    requires m <= n <= |es|
    ensures RealizerErrors(es[..m]) <= RealizerErrors(es[..n])
    ensures |RealizerErrors(es[..m])| == |RealizerErrors(es[..n])| <==>
              forall i :: m <= i < n ==> !(es[i].RealizerCloses? && es[i].err.Some?)
  {
    if m < n {
      ErrorsGrow(es, m, n - 1);
      ErrorsStep(es, n);
    }
  }

  /** Nothing is missing from the report if and only if, when the first Close stored it, no realizer had an error
      still in hand, and none returned an error later. */
  lemma ReportCompleteIff(ss: seq<State>, es: seq<Event>, at: nat, c: CallId)
    requires Run(ss, es) && at < |es| && es[at] == Store(c)
    ensures multiset(ss[at].recorded) == multiset(RealizerErrors(es)) <==>
              && ss[at].inHand == multiset{}
              && forall i :: at <= i < |es| ==> !(es[i].RealizerCloses? && es[i].err.Some?)
  {
    ErrorsAccounted(ss, es, at);
    ErrorsGrow(es, at, |es|);
    assert es[..|es|] == es;
    var all, soFar := RealizerErrors(es), RealizerErrors(es[..at]);
    assert |multiset(all)| == |all| && |multiset(soFar)| == |soFar|;
    assert |multiset(ss[at].recorded) + ss[at].inHand| == |ss[at].recorded| + |ss[at].inHand|;
    if |all| == |soFar| {
      assert all == soFar;
    }
  }

  /** Nothing new comes into hand while no realizer returns an error. */
  lemma {:induction false} HandsStayEmpty(ss: seq<State>, es: seq<Event>, m: nat, n: nat)
    requires Run(ss, es) && m <= n <= |es| && ss[m].inHand == multiset{}
    requires forall i :: m <= i < n ==> !(es[i].RealizerCloses? && es[i].err.Some?)
    ensures ss[n].inHand == multiset{}
  {
    if m < n {
      HandsStayEmpty(ss, es, m, n - 1);
    }
  }

  lemma {:induction false} NobodyCalledYet(ss: seq<State>, es: seq<Event>, n: nat)
    requires Run(ss, es) && n <= |es| && forall i :: 0 <= i < n ==> !es[i].CallClose?
    ensures ss[n].calls == map[]
  {
    if n > 0 {
      NobodyCalledYet(ss, es, n - 1);
    }
  }

  /** If every realizer's Close is over before the first call of the arena's Close, every caller is told exactly the
      errors the realizers returned and the wrapped arena's. */
  lemma RealizersFirst(ss: seq<State>, es: seq<Event>, start: nat, n: nat, c: CallId)
    returns (kept: seq<Error>, arenaErr: Option<Error>, at: nat)
    requires Run(ss, es) && start <= n <= |es| && c in ss[n].calls && ss[n].calls[c].Returned?
    requires forall i :: 0 <= i < start ==> !es[i].CallClose?
    requires ss[start].inHand == multiset{}
    requires forall i :: start <= i < |es| ==> !(es[i].RealizerCloses? && es[i].err.Some?)
    ensures ss[n].calls[c].err == JoinErrors(Somes(kept) + [arenaErr])
    ensures multiset(kept) == multiset(RealizerErrors(es))
    ensures at < |es| && es[at].CloseInner? && es[at].err == arenaErr
  {
    var stored, first := CloseReports(ss, es, n, c);
    kept, arenaErr := ss[stored].recorded, ss[stored].calls[first].arenaErr;
    if stored < start {
      NobodyCalledYet(ss, es, stored);
    }
    HandsStayEmpty(ss, es, start, stored);
    ReportCompleteIff(ss, es, stored, first);
    at := InnerCloseOf(ss, es, stored, first);
  }

  lemma {:induction false} InnerCloseOf(ss: seq<State>, es: seq<Event>, n: nat, c: CallId) returns (at: nat)
    requires Run(ss, es) && n <= |es| && c in ss[n].calls && ss[n].calls[c].Storing?
    ensures at < n && es[at] == CloseInner(c, ss[n].calls[c].arenaErr)
  {
    if es[n - 1] == CloseInner(c, ss[n].calls[c].arenaErr) {
      at := n - 1;
    } else {
      at := InnerCloseOf(ss, es, n - 1, c);
    }
  }

  /** The report is nil exactly when no error was recorded and the wrapped arena closed cleanly. */
  lemma StoredNilIff(recorded: seq<Error>, arenaErr: Option<Error>)
    ensures Stored(recorded, arenaErr) == None <==> recorded == [] && arenaErr == None
    ensures Stored(recorded, arenaErr).Some? ==>
              Stored(recorded, arenaErr).value
              == Joined(recorded + (if arenaErr.Some? then [arenaErr.value] else []))
  {
    NonNilOne(Somes(recorded), arenaErr);
    NonNilOfSome(recorded, Somes(recorded));
  }

  // ---- A Close call run on its own ----

  /** The events of a call of the arena's Close that nothing interrupts. */
  function CloseEvents(s: State, c: CallId, arenaErr: Option<Error>): seq<Event> {
    if s.once.Done? then [CallClose(c), Pass(c), Return(c)]
    else [CallClose(c), Enter(c), CloseInner(c, arenaErr), Store(c), Return(c)]
  }

  lemma StepsCons(s: State, e: Event, t: State, es: seq<Event>)
    requires Step(s, e) == Some(t)
    ensures Steps(s, [e] + es) == Steps(t, es)
  {
    assert ([e] + es)[1..] == es;
  }

  lemma FirstClose(s: State, c: CallId, arenaErr: Option<Error>)
    requires c !in s.calls && s.once.NotDone?
    ensures var err := Stored(s.recorded, arenaErr);
            Steps(s, CloseEvents(s, c, arenaErr))
            == Some(s.(once := Done, closeErr := err, calls := s.calls[c := Returned(err)],
                       innerCloses := s.innerCloses + 1))
  {
    var err := Stored(s.recorded, arenaErr);
    var s1 := s.(calls := s.calls[c := AtOnce]);
    var s2 := s1.(once := Running(c), calls := s1.calls[c := Inside]);
    var s3 := s2.(calls := s2.calls[c := Storing(arenaErr)], innerCloses := s.innerCloses + 1);
    var s4 := s3.(closeErr := err, once := Done, calls := s3.calls[c := Past]);
    var s5 := s4.(calls := s4.calls[c := Returned(err)]);
    StepsCons(s4, Return(c), s5, []);
    StepsCons(s3, Store(c), s4, [Return(c)]);
    StepsCons(s2, CloseInner(c, arenaErr), s3, [Store(c), Return(c)]);
    StepsCons(s1, Enter(c), s2, [CloseInner(c, arenaErr), Store(c), Return(c)]);
    StepsCons(s, CallClose(c), s1, [Enter(c), CloseInner(c, arenaErr), Store(c), Return(c)]);
    assert s5.calls == s.calls[c := Returned(err)];
  }

  lemma LaterClose(s: State, c: CallId, arenaErr: Option<Error>)
    requires c !in s.calls && s.once.Done?
    ensures Steps(s, CloseEvents(s, c, arenaErr)) == Some(s.(calls := s.calls[c := Returned(s.closeErr)]))
  {
    var s1 := s.(calls := s.calls[c := AtOnce]);
    var s2 := s1.(calls := s1.calls[c := Past]);
    var s3 := s2.(calls := s2.calls[c := Returned(s.closeErr)]);
    StepsCons(s2, Return(c), s3, []);
    StepsCons(s1, Pass(c), s2, [Return(c)]);
    StepsCons(s, CallClose(c), s1, [Pass(c), Return(c)]);
    assert s3.calls == s.calls[c := Returned(s.closeErr)];
  }

  /** A realizer's Close: an error, if there is one, is in hand for a moment and then recorded. */
  function RealizerEvents(err: Option<Error>): seq<Event> {
    [RealizerCloses(err)] + if err.Some? then [Record(err.value)] else []
  }

  lemma NonNilSingle(err: Option<Error>)
    ensures NonNil([err]) == if err.Some? then [err.value] else []
  {
    NonNilOne([], err);
    assert [] + [err] == [err];
  }

  lemma RealizerCloseSteps(s: State, err: Option<Error>)
    ensures Steps(s, RealizerEvents(err)) == Some(s.(recorded := s.recorded + NonNil([err])))
  {
    NonNilSingle(err);
    if err.Some? {
      var x := err.value;
      var s1 := s.(inHand := s.inHand + multiset{x});
      var s2 := s.(recorded := s.recorded + [x]);
      assert s1.inHand - multiset{x} == s.inHand;
      StepsCons(s1, Record(x), s2, []);
      assert [Record(x)] + [] == [Record(x)];
      StepsCons(s, RealizerCloses(err), s1, [Record(x)]);
    } else {
      StepsCons(s, RealizerCloses(err), s, []);
      assert s.recorded + [] == s.recorded;
    }
  }

  // ---- The two objects ----

  class TrackingFetchArena {
    var realizerErrors: seq<Error>
    var done: bool
    var closeErr: Option<Error>

    /** The machine's state between two calls, when everything but this object is as in `rest`. */
    function S(rest: State): State
      reads this
    {
      rest.(recorded := realizerErrors, once := if done then Done else NotDone, closeErr := closeErr)
    }

    constructor ()
      ensures realizerErrors == [] && !done && closeErr == None && S(INIT) == INIT
    {
      realizerErrors, done, closeErr := [], false, None;
    }

    /** Close, given what the wrapped arena's Close would return; `inner` says whether it was called. */
    method Close(arenaErr: Option<Error>) returns (err: Option<Error>, inner: bool)
      modifies `done, `closeErr
      ensures done && err == closeErr
      ensures inner <==> !old(done)
      ensures closeErr == if old(done) then old(closeErr) else Stored(realizerErrors, arenaErr)
      ensures forall rest: State, c: CallId :: c !in rest.calls ==>
                Steps(old(S(rest)), CloseEvents(old(S(rest)), c, arenaErr))
                == Some(S(rest).(calls := rest.calls[c := Returned(err)],
                                 innerCloses := rest.innerCloses + if inner then 1 else 0))
    {
      inner := false;
      if !done {
        inner := true;
        closeErr := JoinErrors(Somes(realizerErrors) + [arenaErr]);
        done := true;
      }
      err := closeErr;
      forall rest: State, c: CallId | c !in rest.calls
        ensures Steps(old(S(rest)), CloseEvents(old(S(rest)), c, arenaErr))
                == Some(S(rest).(calls := rest.calls[c := Returned(err)],
                                 innerCloses := rest.innerCloses + if inner then 1 else 0))
      {
        if inner {
          FirstClose(old(S(rest)), c, arenaErr);
        } else {
          LaterClose(old(S(rest)), c, arenaErr);
        }
      }
    }
  }

  class TrackingRealizer {
    const arena: TrackingFetchArena

    constructor (arena: TrackingFetchArena)
      ensures this.arena == arena
    {
      this.arena := arena;
    }

    /** Close, given what the wrapped realizer's Close returns. */
    method Close(inner: Option<Error>) returns (err: Option<Error>)
      modifies arena`realizerErrors
      ensures err == inner
      ensures arena.realizerErrors == old(arena.realizerErrors) + NonNil([inner])
      ensures forall rest: State :: Steps(old(arena.S(rest)), RealizerEvents(inner)) == Some(arena.S(rest))
    {
      err := inner;
      NonNilSingle(inner);
      if err.Some? {
        arena.realizerErrors := arena.realizerErrors + [err.value];
      }
      forall rest: State ensures Steps(old(arena.S(rest)), RealizerEvents(inner)) == Some(arena.S(rest)) {
        RealizerCloseSteps(old(arena.S(rest)), inner);
        assert arena.realizerErrors == old(arena.realizerErrors) + NonNil([inner]);
      }
    }
  }
}
