/** Conservation of traffic over every interleaving of adders, registrations and reporting cycles. */
module AccountingRuns {
  import opened Common
  import opened Accounting

  datatype World<T, N, O> = World(store: Store<T, N, O>, threads: seq<Thread<T, N, O>>)

  datatype Action<T, N, O> =
    | Act(i: nat, choice: Choice<T>)
    | Spawn(thread: Thread<T, N, O>)
    | Register(tag: T)

  /** A thread at its first step. */
  predicate Fresh<T(==), N, O>(nm: Naming<T, N, O>, s: Store<T, N, O>, th: Thread<T, N, O>) {
    match th
    case Adder(tag, _, _, stage) => tag in s.counters && stage.Mark?
    case Reporter(node, _, phase, todo, cur, taken, lines, back, _) =>
      nm.nodes(node) && phase.Collect? && todo == [] && cur == [] && taken == [] && lines == [] && back == []
  }

  ghost predicate Shape<T(!new), N(!new), O(!new)>(nm: Naming<T, N, O>, w: World<T, N, O>) {
    && AllAttributed(nm, w.store)
    && (forall i :: 0 <= i < |w.threads| ==> Fits(nm, w.store, w.threads[i]))
    && LinesKnown(nm, w.store.counters, w.store.reports)
  }

  /** Every reported line was read, by a reporting node, from the tag of a registered counter. */
  ghost predicate LinesKnown<T, N, O>(nm: Naming<T, N, O>, counters: map<T, Cell>, lines: seq<Line<N, O>>) {
    forall i :: 0 <= i < |lines| ==> LineKnown(nm, counters, lines[i])
  }

  predicate LineKnown<T(==), N, O(==)>(nm: Naming<T, N, O>, counters: map<T, Cell>, line: Line<N, O>) {
    var t := nm.tagOf(line.node, line.owner);
    nm.nodes(line.node) && t in counters && nm.parse(line.node, t) == Some(line.owner)
  }

  ghost predicate Enabled<T(!new), N(!new), O(!new)>(nm: Naming<T, N, O>, w: World<T, N, O>, a: Action<T, N, O>) {
    match a
    case Act(i, _) => i < |w.threads|
    case Spawn(th) => Fresh(nm, w.store, th)
    case Register(t) => Attributed(nm, t)
  }

  const NewCell := Cell(Zero, false, Zero, Zero)

  ghost function Next<T(!new), N(!new), O(!new)>(
    nm: Naming<T, N, O>, w: World<T, N, O>, a: Action<T, N, O>): World<T, N, O>
    requires Shape(nm, w) && Enabled(nm, w, a)
  {
    match a
    case Act(i, ch) =>
      var (s, th) := ThreadStep(nm, w.store, w.threads[i], ch);
      World(s, w.threads[i := th])
    case Spawn(th) => w.(threads := w.threads + [th])
    case Register(t) =>
      if t in w.store.counters then w else w.(store := w.store.(counters := w.store.counters[t := NewCell]))
  }

  // ---- what every step keeps ----

  lemma ReportsKept<T(!new), N(!new), O(!new)>(
    nm: Naming<T, N, O>, s: Store<T, N, O>, th: Thread<T, N, O>, ch: Choice<T>)
    requires Fits(nm, s, th) && LinesKnown(nm, s.counters, s.reports)
    ensures var s' := ThreadStep(nm, s, th, ch).0; LinesKnown(nm, s'.counters, s'.reports)
  {
    var s' := ThreadStep(nm, s, th, ch).0;
    ThreadGrew(nm, s, th, ch);
    if th.Reporter? && th.phase.Send? {
      forall i | 0 <= i < |s'.reports| ensures LineKnown(nm, s'.counters, s'.reports[i]) {
        if i >= |s.reports| && ch.accepted {
          assert s'.reports[i] == th.lines[i - |s.reports|];
        }
      }
    } else {
      assert s'.reports == s.reports;
      assert forall i :: 0 <= i < |s.reports| ==> LineKnown(nm, s.counters, s.reports[i]);
    }
  }

  lemma {:induction false} DiscardKeys<T>(counters: map<T, Cell>, taken: seq<Taken<T>>)
    ensures DiscardAll(counters, taken).Keys == counters.Keys
  {
    if taken != [] {
      DiscardKeys(counters, taken[1..]);
    }
  }

  lemma KeysKept<T(!new), N(!new), O(!new)>(nm: Naming<T, N, O>, s: Store<T, N, O>, th: Thread<T, N, O>, ch: Choice<T>)
    requires Fits(nm, s, th)
    ensures ThreadStep(nm, s, th, ch).0.counters.Keys == s.counters.Keys
  {
    hide DiscardAll;
    if th.Reporter? {
      DiscardKeys(s.counters, th.taken);
    }
  }

  lemma OthersFit<T(!new), N(!new), O(!new)>(nm: Naming<T, N, O>, w: World<T, N, O>, s': Store<T, N, O>)
    requires Shape(nm, w) && Grew(w.store.counters, s'.counters)
    ensures forall i :: 0 <= i < |w.threads| ==> Fits(nm, s', w.threads[i])
  {
    forall i | 0 <= i < |w.threads| ensures Fits(nm, s', w.threads[i]) {
      FitsLater(nm, w.store, s', w.threads[i]);
    }
  }

  lemma KnownLater<T(!new), N(!new), O(!new)>(
    nm: Naming<T, N, O>, before: map<T, Cell>, after: map<T, Cell>, lines: seq<Line<N, O>>)
    requires LinesKnown(nm, before, lines) && Grew(before, after)
    ensures LinesKnown(nm, after, lines)
  {
    assert forall i :: 0 <= i < |lines| ==> LineKnown(nm, before, lines[i]);
  }

  /** Every step keeps the threads consistent with the registry and drops no counter. */
  lemma NextKeepsShape<T(!new), N(!new), O(!new)>(nm: Naming<T, N, O>, w: World<T, N, O>, a: Action<T, N, O>)
    requires Shape(nm, w) && Enabled(nm, w, a)
    ensures Shape(nm, Next(nm, w, a)) && Grew(w.store.counters, Next(nm, w, a).store.counters)
  {
    hide ThreadStep, Attributed, LineKnown, LinesKnown;
    var w' := Next(nm, w, a);
    match a {
      case Act(i, ch) =>
        ThreadGrew(nm, w.store, w.threads[i], ch);
        FitsKept(nm, w.store, w.threads[i], ch);
        ReportsKept(nm, w.store, w.threads[i], ch);
        KeysKept(nm, w.store, w.threads[i], ch);
        OthersFit(nm, w, w'.store);
      case Spawn(th) =>
      case Register(t) =>
        OthersFit(nm, w, w'.store);
        KnownLater(nm, w.store.counters, w'.store.counters, w.store.reports);
    }
  }

  // ---- conservation ----

  /** Bytes of `t` in the hands of all threads. */
  function AllHands<T(==), N, O>(ths: seq<Thread<T, N, O>>, t: T, d: Dir): nat {
    if ths == [] then 0 else InHand(ths[0], t, d) + AllHands(ths[1..], t, d)
  }

  lemma {:induction false} HandsUpdate<T, N, O>(ths: seq<Thread<T, N, O>>, i: nat, th: Thread<T, N, O>, t: T, d: Dir)
    requires i < |ths|
    ensures AllHands(ths[i := th], t, d) == AllHands(ths, t, d) - InHand(ths[i], t, d) + InHand(th, t, d)
    ensures InHand(ths[i], t, d) <= AllHands(ths, t, d)
  {
    if i > 0 {
      HandsUpdate(ths[1..], i - 1, th, t, d);
      assert ths[i := th][1..] == ths[1..][i - 1 := th];
    }
  }

  lemma {:induction false} HandsAppend<T, N, O>(ths: seq<Thread<T, N, O>>, th: Thread<T, N, O>, t: T, d: Dir)
    ensures AllHands(ths + [th], t, d) == AllHands(ths, t, d) + InHand(th, t, d)
  {
    if ths == [] {
      assert ths + [th] == [th] && [th][1..] == [];
      assert AllHands<T, N, O>([], t, d) == 0;
    } else {
      HandsAppend(ths[1..], th, t, d);
      assert (ths + [th])[1..] == ths[1..] + [th];
    }
  }

  /** Added = held + in reporters' hands + reported + discarded. */
  ghost predicate Conserved<T(!new), N, O>(nm: Naming<T, N, O>, w: World<T, N, O>) {
    forall t, d :: t in w.store.counters ==> ConservedAt(nm, w, t, d)
  }

  predicate ConservedAt<T(==), N, O>(nm: Naming<T, N, O>, w: World<T, N, O>, t: T, d: Dir)
    requires t in w.store.counters
  {
    var c := w.store.counters[t];
    At(c.added, d)
    == At(c.held, d) + AllHands(w.threads, t, d) + Reported(nm, w.store.reports, t, d) + At(c.discarded, d)
  }

  lemma {:induction false} NothingOf<T>(counters: map<T, Cell>, ts: seq<Taken<T>>, t: T, d: Dir)
    requires Known(counters, ts) && t !in counters
    ensures SumOf(ts, t, d) == 0
  {
    if ts != [] {
      NothingOf(counters, ts[1..], t, d);
    }
  }

  lemma {:induction false} NoHands<T(!new), N(!new), O(!new)>(
    nm: Naming<T, N, O>, s: Store<T, N, O>, ths: seq<Thread<T, N, O>>, t: T, d: Dir)
    requires t !in s.counters && forall i :: 0 <= i < |ths| ==> Fits(nm, s, ths[i])
    ensures AllHands(ths, t, d) == 0
  {
    if ths != [] {
      NoHands(nm, s, ths[1..], t, d);
      assert Fits(nm, s, ths[0]);
      if ths[0].Reporter? {
        NothingOf(s.counters, ths[0].cur, t, d);
        NothingOf(s.counters, ths[0].taken, t, d);
        NothingOf(s.counters, ths[0].back, t, d);
      }
    }
  }

  lemma {:induction false} NoReports<T, N, O>(
    nm: Naming<T, N, O>, counters: map<T, Cell>, lines: seq<Line<N, O>>, t: T, d: Dir)
    requires LinesKnown(nm, counters, lines) && t !in counters
    ensures Reported(nm, lines, t, d) == 0
  {
    if lines != [] {
      assert LineKnown(nm, counters, lines[0]);
      NoReports(nm, counters, lines[1..], t, d);
    }
  }

  /** Conservation leaves every thread room for the bytes it holds. */
  lemma RoomyThread<T(!new), N(!new), O(!new)>(nm: Naming<T, N, O>, w: World<T, N, O>, i: nat)
    requires Conserved(nm, w) && i < |w.threads|
    ensures Roomy(w.store, w.threads[i])
  {
    hide Reported, InHand, AllHands;
    forall t, d | t in w.store.counters
      ensures At(w.store.counters[t].held, d) + InHand(w.threads[i], t, d) <= At(w.store.counters[t].added, d)
    {
      assert ConservedAt(nm, w, t, d);
      HandsUpdate(w.threads, i, w.threads[i], t, d);
    }
  }

  lemma ActConserves<T(!new), N(!new), O(!new)>(
    nm: Naming<T, N, O>, w: World<T, N, O>, i: nat, ch: Choice<T>, t: T, d: Dir)
    requires Shape(nm, w) && Conserved(nm, w) && Bounded(w.store) && i < |w.threads| && t in w.store.counters
    requires Bounded(ThreadStep(nm, w.store, w.threads[i], ch).0)
    ensures t in Next(nm, w, Act(i, ch)).store.counters && ConservedAt(nm, Next(nm, w, Act(i, ch)), t, d)
  {
    hide ThreadStep, Bounded, Reported, Fits, InHand, AllHands, LinesKnown, AllAttributed;
    RoomyThread(nm, w, i);
    assert Fits(nm, w.store, w.threads[i]);
    StepBalances(nm, w.store, w.threads[i], ch, t, d);
    var (s', th') := ThreadStep(nm, w.store, w.threads[i], ch);
    HandsUpdate(w.threads, i, th', t, d);
    assert ConservedAt(nm, w, t, d);
  }

  lemma NextConserves<T(!new), N(!new), O(!new)>(nm: Naming<T, N, O>, w: World<T, N, O>, a: Action<T, N, O>)
    requires Shape(nm, w) && Enabled(nm, w, a) && Conserved(nm, w)
    requires Bounded(w.store) && Bounded(Next(nm, w, a).store)
    ensures Conserved(nm, Next(nm, w, a))
  {
    var w' := Next(nm, w, a);
    forall t, d | t in w'.store.counters ensures ConservedAt(nm, w', t, d) {
      NextConservesAt(nm, w, a, t, d);
    }
  }

  lemma NextConservesAt<T(!new), N(!new), O(!new)>(
    nm: Naming<T, N, O>, w: World<T, N, O>, a: Action<T, N, O>, t: T, d: Dir)
    requires Shape(nm, w) && Enabled(nm, w, a) && Conserved(nm, w)
    requires Bounded(w.store) && Bounded(Next(nm, w, a).store) && t in Next(nm, w, a).store.counters
    ensures ConservedAt(nm, Next(nm, w, a), t, d)
  {
    hide ThreadStep, Bounded, Reported, Fits, InHand, AllHands, LinesKnown, AllAttributed;
    match a {
      case Act(i, ch) =>
        KeysKept(nm, w.store, w.threads[i], ch);
        ActConserves(nm, w, i, ch, t, d);
      case Spawn(th) =>
        HandsAppend(w.threads, th, t, d);
        FreshHoldsNothing(nm, w.store, th, t, d);
        assert ConservedAt(nm, w, t, d);
      case Register(u) =>
        if t in w.store.counters {
          assert ConservedAt(nm, w, t, d);
        } else {
          NoHands(nm, w.store, w.threads, t, d);
          NoReports(nm, w.store.counters, w.store.reports, t, d);
        }
    }
  }

  lemma FreshHoldsNothing<T, N, O>(nm: Naming<T, N, O>, s: Store<T, N, O>, th: Thread<T, N, O>, t: T, d: Dir)
    requires Fresh(nm, s, th)
    ensures InHand(th, t, d) == 0
  {
  }

  // ---- whole runs ----

  /** An empty registry and no threads. */
  function Start<T, N, O>(): World<T, N, O> { World(Store(map[], {}, []), []) }

  /** `w'` is reached from `w` by these actions. */
  ghost predicate Leads<T(!new), N(!new), O(!new)>(
    nm: Naming<T, N, O>, w: World<T, N, O>, acts: seq<Action<T, N, O>>, w': World<T, N, O>)
    requires Shape(nm, w)
    decreases |acts|
  {
    if acts == [] then w' == w
    else
      && Enabled(nm, w, acts[0])
      && (NextKeepsShape(nm, w, acts[0]); Leads(nm, Next(nm, w, acts[0]), acts[1..], w'))
  }

  lemma {:induction false} LeadsKeepsShape<T(!new), N(!new), O(!new)>(
    nm: Naming<T, N, O>, w: World<T, N, O>, acts: seq<Action<T, N, O>>, w': World<T, N, O>)
    requires Shape(nm, w) && Leads(nm, w, acts, w')
    ensures Shape(nm, w') && Grew(w.store.counters, w'.store.counters)
    decreases |acts|
  {
    if acts != [] {
      NextKeepsShape(nm, w, acts[0]);
      LeadsKeepsShape(nm, Next(nm, w, acts[0]), acts[1..], w');
    }
  }

  /** Conservation carries along every run whose final totals are below the limit. */
  lemma {:induction false} RunConserves<T(!new), N(!new), O(!new)>(
    nm: Naming<T, N, O>, w: World<T, N, O>, acts: seq<Action<T, N, O>>, w': World<T, N, O>)
    requires Shape(nm, w) && Conserved(nm, w) && Leads(nm, w, acts, w') && Bounded(w'.store)
    ensures Conserved(nm, w')
    decreases |acts|
  {
    LeadsKeepsShape(nm, w, acts, w');
    if acts != [] {
      NextKeepsShape(nm, w, acts[0]);
      var w1 := Next(nm, w, acts[0]);
      LeadsKeepsShape(nm, w1, acts[1..], w');
      BoundedEarlier(w.store, w'.store);
      BoundedEarlier(w1.store, w'.store);
      NextConserves(nm, w, acts[0]);
      RunConserves(nm, w1, acts[1..], w');
    }
  }

  lemma BoundedEarlier<T(!new), N, O>(s: Store<T, N, O>, s': Store<T, N, O>)
    requires Grew(s.counters, s'.counters) && Bounded(s')
    ensures Bounded(s)
  {
    forall t, d | t in s.counters ensures At(s.counters[t].added, d) < LIMIT {
      assert At(s'.counters[t].added, d) < LIMIT;
    }
  }

  lemma {:induction false} LeadsFurther<T(!new), N(!new), O(!new)>(
    nm: Naming<T, N, O>, w: World<T, N, O>, acts: seq<Action<T, N, O>>, w': World<T, N, O>, a: Action<T, N, O>)
    requires Shape(nm, w) && Leads(nm, w, acts, w') && Shape(nm, w') && Enabled(nm, w', a)
    ensures Leads(nm, w, acts + [a], Next(nm, w', a)) && Shape(nm, Next(nm, w', a))
    decreases |acts|
  {
    hide Shape, Enabled, Next;
    NextKeepsShape(nm, w', a);
    if acts == [] {
      assert acts + [a] == [a] && [a][1..] == [];
    } else {
      NextKeepsShape(nm, w, acts[0]);
      LeadsFurther(nm, Next(nm, w, acts[0]), acts[1..], w', a);
      assert (acts + [a])[1..] == acts[1..] + [a];
    }
  }
}
