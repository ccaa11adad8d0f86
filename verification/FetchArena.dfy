/** Who owns a layer: the fetch arena, one realizer, a Close call under way, or nobody any more. The two locks make
    Realize and the first half of each Close atomic; the closing loops run outside them, one layer at a time, and
    interleave with everything. */
module FetchArena {
  import opened Text
  import opened Errors
  import opened Order

  datatype Layer = Layer(id: int)
  type RealizerId = int
  type CallId = int

  /** What can be closed: a layer, or the readers behind all of them. */
  datatype Resource = L(layer: Layer) | Readers

  /** A Close call under way: what it took, and how many of these it has closed. */
  datatype Task = Task(all: seq<Resource>, done: nat)

  datatype State = State(pending: set<Layer>, readers: bool, held: map<RealizerId, seq<Layer>>,
                         flight: map<CallId, Task>, closed: seq<Resource>)

  datatype Event =
    | NewRealizer(r: RealizerId)
    | Realize(r: RealizerId, ls: seq<Layer>)
    | CloseRealizer(r: RealizerId, c: CallId)
    | CloseArena(c: CallId, order: seq<Layer>)
    | CloseNext(c: CallId)

  function Elements(ls: seq<Layer>): set<Layer> { set l | l in ls }

  function Layers(ls: seq<Layer>): (rs: seq<Resource>)
    ensures |rs| == |ls| && forall i :: 0 <= i < |ls| ==> rs[i] == L(ls[i])
  {
    if ls == [] then [] else [L(ls[0])] + Layers(ls[1..])
  }

  /** `order` is the map of pending layers as one iteration happens to list it. */
  predicate Lists(order: seq<Layer>, pending: set<Layer>) {
    Elements(order) == pending && Distinct(order)
  }

  function Taken(order: seq<Layer>, readers: bool): seq<Resource> {
    Layers(order) + if readers then [Readers] else []
  }

  function Step(s: State, e: Event): Option<State> {
    match e
    case NewRealizer(r) => if r in s.held then None else Some(s.(held := s.held[r := []]))
    case Realize(r, ls) =>
      if r !in s.held then None
      else Some(s.(pending := s.pending - Elements(ls), held := s.held[r := s.held[r] + ls]))
    case CloseRealizer(r, c) =>
      if r !in s.held || c in s.flight then None
      else Some(s.(held := s.held[r := []], flight := s.flight[c := Task(Layers(s.held[r]), 0)]))
    case CloseArena(c, order) =>
      if c in s.flight || !Lists(order, s.pending) then None
      else Some(s.(pending := {}, readers := false, flight := s.flight[c := Task(Taken(order, s.readers), 0)]))
    case CloseNext(c) =>
      if c !in s.flight || s.flight[c].done >= |s.flight[c].all| then None
      else
        var t := s.flight[c];
        Some(s.(flight := s.flight[c := Task(t.all, t.done + 1)], closed := s.closed + [t.all[t.done]]))
  }

  // ---- Ownership ----

  /** The places a resource can be in. `Closed(k)` is the k-th call of a Close method. */
  datatype Place = InPending(l: Layer) | InReaders | Held(r: RealizerId, i: int) | Flight(c: CallId, i: int)
                 | Closed(k: int)

  function At(s: State, p: Place): Option<Resource> {
    match p
    case InPending(l) => if l in s.pending then Some(L(l)) else None
    case InReaders => if s.readers then Some(Readers) else None
    case Held(r, i) => if r in s.held && 0 <= i < |s.held[r]| then Some(L(s.held[r][i])) else None
    case Flight(c, i) =>
      if c in s.flight && s.flight[c].done <= i < |s.flight[c].all| then Some(s.flight[c].all[i]) else None
    case Closed(k) => if 0 <= k < |s.closed| then Some(s.closed[k]) else None
  }

  ghost predicate Present(s: State, x: Resource) { exists p :: At(s, p) == Some(x) }

  /** No resource is in two places; in particular none is closed twice or closed while still owned. */
  ghost predicate Exclusive(s: State) {
    forall p, q :: At(s, p).Some? && At(s, p) == At(s, q) ==> p == q
  }

  /** Where the content of a place came from, for every event but Realize. */
  function Back(s: State, e: Event, q: Place): Place {
    match e
    case CloseRealizer(r, c) => if q.Flight? && q.c == c then Held(r, q.i) else q
    case CloseArena(c, order) =>
      if q.Flight? && q.c == c then (if 0 <= q.i < |order| then InPending(order[q.i]) else InReaders) else q
    case CloseNext(c) =>
      if q == Closed(|s.closed|) && c in s.flight then Flight(c, s.flight[c].done) else q
    case _ => q
  }

  lemma BackIsOrigin(s: State, e: Event, s': State, q: Place)
    requires Step(s, e) == Some(s') && !e.Realize? && At(s', q).Some?
    ensures At(s, Back(s, e, q)) == At(s', q)
  {
    if e.CloseArena? && q.Flight? && q.c == e.c && q.i < |e.order| {
      assert e.order[q.i] in Elements(e.order);
    }
  }

  lemma BackIsInjective(s: State, e: Event, s': State, p: Place, q: Place)
    requires Step(s, e) == Some(s') && !e.Realize? && At(s', p).Some? && At(s', q).Some?
    requires Back(s, e, p) == Back(s, e, q)
    ensures p == q
  {
  }

  /** Closing never duplicates ownership, in any state and after any history. */
  lemma OtherStepsKeepExclusive(s: State, e: Event, s': State)
    requires Exclusive(s) && Step(s, e) == Some(s') && !e.Realize?
    ensures Exclusive(s')
  {
    forall p, q | At(s', p).Some? && At(s', p) == At(s', q) ensures p == q {
      BackIsOrigin(s, e, s', p);
      BackIsOrigin(s, e, s', q);
      BackIsInjective(s, e, s', p, q);
    }
  }

  /** Every layer asked for is still the arena's, or is not known anywhere. */
  ghost predicate Available(s: State, ls: seq<Layer>) {
    forall l :: l in ls ==> l in s.pending || !Present(s, L(l))
  }

  lemma RealizeGrows(s: State, r: RealizerId, ls: seq<Layer>, s': State, q: Place)
    requires Step(s, Realize(r, ls)) == Some(s') && At(s', q).Some?
    ensures At(s, q) == At(s', q) || (q.Held? && q.r == r && |s.held[r]| <= q.i && ls[q.i - |s.held[r]|] in ls)
  {
  }

  lemma RealizeKeepsExclusive(s: State, r: RealizerId, ls: seq<Layer>, s': State)
    requires Exclusive(s) && Step(s, Realize(r, ls)) == Some(s')
    requires Distinct(ls) && Available(s, ls)
    ensures Exclusive(s')
  {
    forall p, q | At(s', p).Some? && At(s', p) == At(s', q) ensures p == q {
      RealizeGrows(s, r, ls, s', p);
      RealizeGrows(s, r, ls, s', q);
      RealizedNotKept(s, r, ls, s', p, q);
      RealizedNotKept(s, r, ls, s', q, p);
    }
  }

  lemma RealizedNotKept(s: State, r: RealizerId, ls: seq<Layer>, s': State, p: Place, q: Place)
    requires Exclusive(s) && Step(s, Realize(r, ls)) == Some(s') && Available(s, ls)
    requires At(s', p).Some? && At(s', p) == At(s', q)
    ensures p.Held? && p.r == r && p.i >= |s.held[r]| ==> At(s, q) != At(s', q)
  {
    if p.Held? && p.r == r && p.i >= |s.held[r]| {
      var l := ls[p.i - |s.held[r]|];
      assert l in ls && At(s', q) == Some(L(l));
      assert At(s, q) == Some(L(l)) ==> Present(s, L(l));
      assert l in s.pending ==> At(s, InPending(l)) == Some(L(l));
      assert At(s', InPending(l)).None?;
    }
  }

  lemma RealizedAt(s: State, r: RealizerId, ls: seq<Layer>, s': State, a: nat)
    requires Step(s, Realize(r, ls)) == Some(s') && a < |ls|
    ensures At(s', Held(r, |s.held[r]| + a)) == Some(L(ls[a]))
    ensures At(s, Held(r, |s.held[r]| + a)) == None
  {
  }

  lemma RepeatBreaks(s: State, r: RealizerId, ls: seq<Layer>, s': State)
    requires Step(s, Realize(r, ls)) == Some(s') && !Distinct(ls)
    ensures !Exclusive(s')
  {
    var a, b :| 0 <= a < b < |ls| && ls[a] == ls[b];
    RealizedAt(s, r, ls, s', a);
    RealizedAt(s, r, ls, s', b);
  }

  lemma UnavailableBreaks(s: State, r: RealizerId, ls: seq<Layer>, s': State)
    requires Step(s, Realize(r, ls)) == Some(s') && !Available(s, ls)
    ensures !Exclusive(s')
  {
    var l :| l in ls && l !in s.pending && Present(s, L(l));
    var p :| At(s, p) == Some(L(l));
    var a :| 0 <= a < |ls| && ls[a] == l;
    RealizedAt(s, r, ls, s', a);
    assert At(s', p) == Some(L(l));
  }

  /** Realize keeps ownership exclusive if and only if it is asked for no layer twice and each one is either still
      pending or not owned by anybody: neither realized before nor taken by the arena's Close. */
  lemma RealizeExclusiveIff(s: State, r: RealizerId, ls: seq<Layer>, s': State)
    requires Exclusive(s) && Step(s, Realize(r, ls)) == Some(s')
    ensures Exclusive(s') <==> Distinct(ls) && Available(s, ls)
  {
    if !Distinct(ls) {
      RepeatBreaks(s, r, ls, s');
    } else if !Available(s, ls) {
      UnavailableBreaks(s, r, ls, s');
    } else {
      RealizeKeepsExclusive(s, r, ls, s');
    }
  }

  /** Nothing is lost and nothing appears: the resources present afterwards are those present before and the
      layers just realized. */
  lemma Conservation(s: State, e: Event, s': State, x: Resource)
    requires Step(s, e) == Some(s')
    ensures Present(s', x) <==> Present(s, x) || (e.Realize? && x.L? && x.layer in e.ls)
  {
    if Present(s', x) {
      var q :| At(s', q) == Some(x);
      if e.Realize? {
        RealizeGrows(s, e.r, e.ls, s', q);
      } else {
        BackIsOrigin(s, e, s', q);
      }
    }
    if Present(s, x) {
      var p :| At(s, p) == Some(x);
      StaysPresent(s, e, s', p);
    }
    if e.Realize? && x.L? && x.layer in e.ls {
      var a :| 0 <= a < |e.ls| && e.ls[a] == x.layer;
      assert At(s', Held(e.r, |s.held[e.r]| + a)) == Some(x);
    }
  }

  lemma StaysPresent(s: State, e: Event, s': State, p: Place)
    requires Step(s, e) == Some(s') && At(s, p).Some?
    ensures Present(s', At(s, p).value)
  {
    match e
    case NewRealizer(r) =>
      assert At(s', p) == At(s, p);
    case Realize(r, ls) =>
      if p.InPending? && p.l in ls {
        var a :| 0 <= a < |ls| && ls[a] == p.l;
        assert At(s', Held(r, |s.held[r]| + a)) == At(s, p);
      } else {
        assert At(s', p) == At(s, p);
      }
    case CloseRealizer(r, c) =>
      if p.Held? && p.r == r {
        assert At(s', Flight(c, p.i)) == At(s, p);
      } else {
        assert At(s', p) == At(s, p);
      }
    case CloseArena(c, order) =>
      if p.InPending? {
        assert p.l in Elements(order);
        var a :| 0 <= a < |order| && order[a] == p.l;
        assert At(s', Flight(c, a)) == At(s, p);
      } else if p.InReaders? {
        assert At(s', Flight(c, |order|)) == At(s, p);
      } else {
        assert At(s', p) == At(s, p);
      }
    case CloseNext(c) =>
      if p == Flight(c, s.flight[c].done) {
        assert At(s', Closed(|s.closed|)) == At(s, p);
      } else {
        assert At(s', p) == At(s, p);
      }
  }

  // ---- Runs ----

  predicate Init(s: State) { s.held == map[] && s.flight == map[] && s.closed == [] }

  ghost predicate Run(ss: seq<State>, es: seq<Event>) {
    && |ss| == |es| + 1 && Init(ss[0])
    && forall i :: 0 <= i < |es| ==> Step(ss[i], es[i]) == Some(ss[i + 1])
  }

  predicate IsCloseArena(e: Event) { e.CloseArena? }

  predicate IsCloseOf(e: Event, r: RealizerId) { e.CloseRealizer? && e.r == r }

  ghost predicate Realized(es: seq<Event>, n: nat, l: Layer) {
    exists i :: 0 <= i < n <= |es| && es[i].Realize? && l in es[i].ls
  }

  ghost predicate ArenaClosed(es: seq<Event>, n: nat) { exists i :: 0 <= i < n <= |es| && IsCloseArena(es[i]) }

  /** Each layer is realized at most once, and none after the arena's Close. */
  ghost predicate Lawful(es: seq<Event>) {
    forall j :: 0 <= j < |es| && es[j].Realize? ==>
      Distinct(es[j].ls) && !ArenaClosed(es, j) && forall l :: l in es[j].ls ==> !Realized(es, j, l)
  }

  /** Before the arena is closed, a layer is either pending or was realized. */
  lemma {:induction false} PendingUntilRealized(ss: seq<State>, es: seq<Event>, n: nat, p: Place)
    requires Run(ss, es) && n <= |es| && !ArenaClosed(es, n)
    requires At(ss[n], p).Some? && At(ss[n], p).value.L?
    ensures p.InPending? || Realized(es, n, At(ss[n], p).value.layer)
  {
    if n > 0 {
      var s, e, s' := ss[n - 1], es[n - 1], ss[n];
      assert !IsCloseArena(e);
      if e.Realize? {
        RealizeGrows(s, e.r, e.ls, s', p);
        if At(s, p) == At(s', p) {
          PendingUntilRealized(ss, es, n - 1, p);
        }
      } else {
        BackIsOrigin(s, e, s', p);
        PendingUntilRealized(ss, es, n - 1, Back(s, e, p));
      }
    }
  }

  /** Every state of every lawful run: each layer, and the set of readers, is in at most one place. */
  lemma {:induction false} OwnershipIsExclusive(ss: seq<State>, es: seq<Event>, n: nat)
    requires Run(ss, es) && Lawful(es) && n <= |es|
    ensures Exclusive(ss[n])
  {
    if n > 0 {
      OwnershipIsExclusive(ss, es, n - 1);
      var s, e, s' := ss[n - 1], es[n - 1], ss[n];
      if e.Realize? {
        forall l | l in e.ls && Present(s, L(l)) ensures l in s.pending {
          var p :| At(s, p) == Some(L(l));
          PendingUntilRealized(ss, es, n - 1, p);
        }
        RealizeKeepsExclusive(s, e.r, e.ls, s');
      } else {
        OtherStepsKeepExclusive(s, e, s');
      }
    }
  }

  /** And in exactly one place, from the start for what the arena was given, from its realization for any other
      layer. */
  lemma {:induction false} PresentIff(ss: seq<State>, es: seq<Event>, n: nat, x: Resource)
    requires Run(ss, es) && n <= |es|
    ensures Present(ss[n], x) <==> Present(ss[0], x) || (x.L? && Realized(es, n, x.layer))
  {
    if n > 0 {
      PresentIff(ss, es, n - 1, x);
      Conservation(ss[n - 1], es[n - 1], ss[n], x);
    }
  }

  // ---- Everything is closed, once ----

  /** The callers' part: the arena is closed, each realizer is closed after it last realized anything, and the
      closing loops have come to their ends. */
  ghost predicate AllClosed(ss: seq<State>, es: seq<Event>) {
    && |ss| == |es| + 1
    && ArenaClosed(es, |es|)
    && (forall i :: 0 <= i < |es| && es[i].Realize? ==>
          exists j :: i < j < |es| && IsCloseOf(es[j], es[i].r))
    && forall c :: c in ss[|es|].flight ==> ss[|es|].flight[c].done >= |ss[|es|].flight[c].all|
  }

  lemma {:induction false} ClosedArenaOwnsNothing(ss: seq<State>, es: seq<Event>, n: nat)
    requires Run(ss, es) && n <= |es| && ArenaClosed(es, n)
    ensures ss[n].pending == {} && !ss[n].readers
  {
    if n > 0 && !IsCloseArena(es[n - 1]) {
      ClosedArenaOwnsNothing(ss, es, n - 1);
    }
  }

  lemma {:induction false} ClosedRealizerHoldsNothing(ss: seq<State>, es: seq<Event>, n: nat, r: RealizerId)
    requires Run(ss, es) && n <= |es|
    requires forall i :: 0 <= i < n && es[i].Realize? && es[i].r == r ==>
               exists j :: i < j < n && IsCloseOf(es[j], r)
    ensures r in ss[n].held ==> ss[n].held[r] == []
  {
    if n > 0 && !IsCloseOf(es[n - 1], r) {
      ClosedRealizerHoldsNothing(ss, es, n - 1, r);
    }
  }

  predicate Owed(s0: State, es: seq<Event>, x: Resource) {
    match x
    case Readers => s0.readers
    case L(l) => l in s0.pending || exists i :: 0 <= i < |es| && es[i].Realize? && l in es[i].ls
  }

  /** When all Close calls are over, the log of closes lists the readers and every layer the arena was given or a
      realizer was asked for, each exactly once, and nothing else. */
  lemma ClosedExactlyOnce(ss: seq<State>, es: seq<Event>, x: Resource)
    requires Run(ss, es) && Lawful(es) && AllClosed(ss, es)
    ensures multiset(ss[|es|].closed)[x] == if Owed(ss[0], es, x) then 1 else 0
  {
    var n := |es|;
    var s := ss[n];
    ClosedArenaOwnsNothing(ss, es, n);
    OwnershipIsExclusive(ss, es, n);
    PresentIff(ss, es, n, x);
    InitiallyPresent(ss[0], x);
    assert Present(s, x) <==> Owed(ss[0], es, x);
    if Present(s, x) {
      var p :| At(s, p) == Some(x);
      if p.Held? {
        ClosedRealizerHoldsNothing(ss, es, n, p.r);
      }
      assert p.Closed?;
    }
    forall k | 0 <= k < |s.closed| && s.closed[k] == x ensures Present(s, x) {
      assert At(s, Closed(k)) == Some(x);
    }
    forall j, k | 0 <= j < k < |s.closed| ensures s.closed[j] != s.closed[k] {
      assert At(s, Closed(j)).Some?;
      assert At(s, Closed(j)) == At(s, Closed(k)) ==> Closed(j) == Closed(k);
    }
    CountInLog(s.closed, x);
  }

  lemma InitiallyPresent(s: State, x: Resource)
    requires Init(s)
    ensures Present(s, x) <==> if x.L? then x.layer in s.pending else s.readers
  {
    if x.L? && x.layer in s.pending {
      assert At(s, InPending(x.layer)) == Some(x);
    }
    if x.Readers? && s.readers {
      assert At(s, InReaders) == Some(x);
    }
  }

  lemma {:induction false} CountInLog(log: seq<Resource>, x: Resource)
    requires forall j, k :: 0 <= j < k < |log| ==> log[j] != log[k]
    ensures multiset(log)[x] == if x in log then 1 else 0
  {
    if log != [] {
      assert log == [log[0]] + log[1..];
      CountInLog(log[1..], x);
    }
  }

  /** Until then, nothing has been closed twice, and nothing that is still owned has been closed. */
  lemma NeverClosedTwice(ss: seq<State>, es: seq<Event>, n: nat, x: Resource)
    requires Run(ss, es) && Lawful(es) && n <= |es|
    ensures multiset(ss[n].closed)[x] <= 1
    ensures x in ss[n].closed ==>
              && (x.L? ==> x.layer !in ss[n].pending && forall r :: r in ss[n].held ==> x.layer !in ss[n].held[r])
              && (x.Readers? ==> !ss[n].readers)
  {
    var s := ss[n];
    OwnershipIsExclusive(ss, es, n);
    forall j, k | 0 <= j < k < |s.closed| ensures s.closed[j] != s.closed[k] {
      assert At(s, Closed(j)).Some?;
      assert At(s, Closed(j)) == At(s, Closed(k)) ==> Closed(j) == Closed(k);
    }
    CountInLog(s.closed, x);
    if x in s.closed {
      var k :| 0 <= k < |s.closed| && s.closed[k] == x;
      assert At(s, Closed(k)) == Some(x);
      if x.L? {
        assert At(s, InPending(x.layer)) != Some(x);
        forall r | r in s.held ensures x.layer !in s.held[r] {
          forall i | 0 <= i < |s.held[r]| ensures s.held[r][i] != x.layer {
            assert At(s, Held(r, i)) != Some(x);
          }
        }
      } else {
        assert At(s, InReaders) != Some(x);
      }
    }
  }

  // ---- A Close call run on its own ----

  /** The closing loop of one call, run to its end. */
  function Drain(s: State, c: CallId): (s': State)
    requires c in s.flight && s.flight[c].done <= |s.flight[c].all|
    decreases |s.flight[c].all| - s.flight[c].done
  {
    match Step(s, CloseNext(c))
    case None => s
    case Some(t) => Drain(t, c)
  }

  /** It closes what the call took, in order, and touches nothing else. */
  lemma {:induction false} DrainCloses(s: State, c: CallId)
    requires c in s.flight && s.flight[c].done <= |s.flight[c].all|
    ensures var t, s' := s.flight[c], Drain(s, c);
            && s'.closed == s.closed + t.all[t.done..]
            && s'.flight == s.flight[c := Task(t.all, |t.all|)]
            && s'.pending == s.pending && s'.readers == s.readers && s'.held == s.held
    decreases |s.flight[c].all| - s.flight[c].done
  {
    var t := s.flight[c];
    if t.done < |t.all| {
      DrainCloses(Step(s, CloseNext(c)).value, c);
      assert t.all[t.done..] == [t.all[t.done]] + t.all[t.done + 1..];
    } else {
      assert s.flight[c := Task(t.all, |t.all|)] == s.flight;
    }
  }

  /** A Close call that nothing interrupts: its event and then its closing loop make `closes`, in order, and leave
      the rest as in `left`. */
  ghost predicate Alone(s: State, e: Event, c: CallId, closes: seq<Resource>, left: State) {
    && Step(s, e).Some?
    && var t := Step(s, e).value;
       && c in t.flight && t.flight[c].done == 0
       && Drain(t, c) == left.(flight := left.flight[c := Task(closes, |closes|)], closed := left.closed + closes)
  }

  lemma ArenaCloseAlone(s: State, c: CallId, order: seq<Layer>)
    requires c !in s.flight && Lists(order, s.pending)
    ensures Alone(s, CloseArena(c, order), c, Taken(order, s.readers), s.(pending := {}, readers := false))
  {
    var t := Step(s, CloseArena(c, order)).value;
    DrainCloses(t, c);
    assert t.flight[c].all[0..] == t.flight[c].all;
  }

  lemma RealizerCloseAlone(s: State, r: RealizerId, c: CallId)
    requires r in s.held && c !in s.flight
    ensures Alone(s, CloseRealizer(r, c), c, Layers(s.held[r]), s.(held := s.held[r := []]))
  {
    var t := Step(s, CloseRealizer(r, c)).value;
    DrainCloses(t, c);
    assert t.flight[c].all[0..] == t.flight[c].all;
  }

  /** What a closing loop returns when `fails` says how each resource answers its Close. */
  function Answers(rs: seq<Resource>, fails: Resource -> Option<Error>): (errs: seq<Option<Error>>)
    ensures |errs| == |rs| && forall i :: 0 <= i < |rs| ==> errs[i] == fails(rs[i])
  {
    if rs == [] then [] else [fails(rs[0])] + Answers(rs[1..], fails)
  }

  lemma ListsGrows(order: seq<Layer>, pending: set<Layer>, l: Layer)
    requires Lists(order, pending) && l !in pending
    ensures Lists(order + [l], pending + {l})
  {
    assert forall i :: 0 <= i < |order| ==> order[i] in Elements(order);
  }

  /** Go's iteration over the map of pending layers, in any order. */
  method ListPending(pending: set<Layer>) returns (layers: seq<Layer>)
    ensures Lists(layers, pending)
  {
    var rest;
    layers, rest := [], pending;
    while |rest| > 0
      invariant rest <= pending && Lists(layers, pending - rest)
    {
      var layer :| layer in rest;
      ListsGrows(layers, pending - rest, layer);
      assert pending - (rest - {layer}) == (pending - rest) + {layer};
      layers, rest := layers + [layer], rest - {layer};
    }
    assert pending - {} == pending;
  }

  class LocalFetchArena {
    var pending: set<Layer>
    var readers: bool

    /** The machine's state when this is its arena and everything else is as in `rest`. */
    function S(rest: State): State
      reads this
    {
      rest.(pending := pending, readers := readers)
    }

    constructor (layers: seq<Layer>, readers: bool)
      ensures pending == Elements(layers) && this.readers == readers
    {
      this.readers := readers;
      pending := {};
      new;
      var i := 0;
      while i < |layers|
        invariant 0 <= i <= |layers| && pending == Elements(layers[..i])
        invariant this.readers == readers
      {
        pending := pending + {layers[i]};
        i := i + 1;
      }
      assert layers[..i] == layers;
    }

    /** Takes everything the arena owns, then closes it; `closes` is the calls made, in order. These are the
        machine's steps, in any surroundings. */
    method Close(fails: Resource -> Option<Error>) returns (closes: seq<Resource>, err: Option<Error>)
      modifies this
      ensures pending == {} && !readers
      ensures exists order ::
                && Lists(order, old(pending)) && closes == Taken(order, old(readers))
                && forall rest: State, c: CallId :: c !in rest.flight ==>
                     Alone(old(S(rest)), CloseArena(c, order), c, closes, S(rest))
      ensures err == JoinErrors(Answers(closes, fails))
    {
      var layers := ListPending(pending);
      pending := {};
      var hadReaders := readers;
      readers := false;

      var errs: seq<Option<Error>>;
      closes, errs := CloseLayers(layers, fails);
      if hadReaders {
        closes, errs := closes + [Readers], errs + [fails(Readers)];
      }
      assert errs == Answers(closes, fails);
      err := JoinErrors(errs);
      assert closes == Taken(layers, hadReaders);
      forall rest: State, c: CallId | c !in rest.flight
        ensures Alone(old(S(rest)), CloseArena(c, layers), c, closes, S(rest))
      {
        ArenaCloseAlone(old(S(rest)), c, layers);
        assert old(S(rest)).(pending := {}, readers := false) == S(rest);
      }
    }
  }

  method CloseLayers(layers: seq<Layer>, fails: Resource -> Option<Error>)
    returns (closes: seq<Resource>, errs: seq<Option<Error>>)
    ensures closes == Layers(layers)
    ensures errs == Answers(closes, fails)
  {
    closes, errs := [], [];
    var i := 0;
    while i < |layers|
      invariant 0 <= i <= |layers| && |closes| == |errs| == i
      invariant forall k :: 0 <= k < i ==> closes[k] == L(layers[k])
      invariant forall k :: 0 <= k < i ==> errs[k] == fails(closes[k])
    {
      closes, errs := closes + [L(layers[i])], errs + [fails(L(layers[i]))];
      i := i + 1;
    }
  }

  class Realizer {
    const arena: LocalFetchArena
    var layers: seq<Layer>

    /** The machine's state when this is its realizer `r` and everything else but the arena is as in `rest`. */
    function S(r: RealizerId, rest: State): State
      reads this, arena
    {
      arena.S(rest.(held := rest.held[r := layers]))
    }

    constructor (arena: LocalFetchArena)
      ensures this.arena == arena && layers == []
      ensures forall r: RealizerId, rest: State :: r !in rest.held ==>
                Step(arena.S(rest), NewRealizer(r)) == Some(S(r, rest))
    {
      this.arena := arena;
      layers := [];
    }

    method Realize(ls: seq<Layer>)
      modifies this`layers, arena`pending
      ensures arena.pending == old(arena.pending) - Elements(ls)
      ensures layers == old(layers) + ls
      ensures forall r: RealizerId, rest: State :: Step(old(S(r, rest)), Event.Realize(r, ls)) == Some(S(r, rest))
    {
      var i := 0;
      while i < |ls|
        invariant 0 <= i <= |ls|
        invariant arena.pending == old(arena.pending) - Elements(ls[..i])
        invariant layers == old(layers) + ls[..i]
      {
        arena.pending := arena.pending - {ls[i]};
        layers := layers + [ls[i]];
        i := i + 1;
      }
      assert ls[..i] == ls;
      forall r: RealizerId, rest: State
        ensures Step(old(S(r, rest)), Event.Realize(r, ls)) == Some(S(r, rest))
      {
        assert old(S(r, rest)).held[r := layers] == rest.held[r := layers];
      }
    }

    method Close(fails: Resource -> Option<Error>) returns (closes: seq<Resource>, err: Option<Error>)
      modifies this`layers
      ensures layers == []
      ensures closes == Layers(old(layers))
      ensures forall r: RealizerId, rest: State, c: CallId :: c !in rest.flight ==>
                Alone(old(S(r, rest)), CloseRealizer(r, c), c, closes, S(r, rest))
      ensures err == JoinErrors(Answers(closes, fails))
    {
      var taken := layers;
      layers := [];
      var errs;
      closes, errs := CloseLayers(taken, fails);
      err := JoinErrors(errs);
      forall r: RealizerId, rest: State, c: CallId | c !in rest.flight
        ensures Alone(old(S(r, rest)), CloseRealizer(r, c), c, closes, S(r, rest))
      {
        var s := old(S(r, rest));
        RealizerCloseAlone(s, r, c);
        assert s.held[r := []] == rest.held[r := []];
      }
    }
  }
}
