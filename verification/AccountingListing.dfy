/** When a counter with bytes is bound to be seen by a reporter, between single atomic operations. */
module AccountingListing {
  import opened Common
  import opened Accounting
  import opened AccountingRuns

  /** A reporter stands before swapping this direction of the counter to zero. */
  predicate Swapping<T(==), N, O>(th: Thread<T, N, O>, t: T, d: Dir) {
    && th.Reporter? && (th.phase.SwapUp? || (th.phase.SwapDown? && d.Down?))
    && |th.cur| == 1 && th.cur[0].tag == t
  }

  /** Bytes here cannot be overlooked: the counter is dirty, or a reporter is about to take them. */
  predicate Tracked<T(==), N, O>(w: World<T, N, O>, t: T, d: Dir)
    requires t in w.store.counters
  {
    w.store.counters[t].dirty || exists i :: 0 <= i < |w.threads| && Swapping(w.threads[i], t, d)
  }

  ghost predicate AllTracked<T(!new), N, O>(w: World<T, N, O>) {
    forall t, d :: t in w.store.counters ==> NotLost(w, t, d)
  }

  predicate NotLost<T(==), N, O>(w: World<T, N, O>, t: T, d: Dir)
    requires t in w.store.counters
  {
    At(w.store.counters[t].held, d) > 0 ==> Tracked(w, t, d)
  }

  /** The thread's next step adds bytes to this counter and direction. */
  predicate Adding<T(==), N, O>(th: Thread<T, N, O>, t: T, d: Dir) {
    match th
    case Adder(tag, dir, n, stage) => stage.Add? && tag == t && dir == d && n > 0
    case Reporter(_, _, phase, _, _, _, _, back, _) =>
      && back != [] && back[0].tag == t && At(back[0].amount, d) > 0
      && (if d.Up? then phase.RestoreUp? else phase.RestoreDown?)
  }

  /** How many bytes the thread's next step adds to this counter and direction. */
  function AddedBy<T(==), N, O>(th: Thread<T, N, O>, t: T, d: Dir): (n: nat)
    ensures n > 0 <==> Adding(th, t, d)
  {
    if !Adding(th, t, d) then 0 else if th.Adder? then th.n else At(th.back[0].amount, d)
  }

  /** The guard: bytes arrive after the flag that announced them was taken down, and after they could still be taken. */
  predicate LateAdd<T(==), N, O>(w: World<T, N, O>, i: nat, t: T, d: Dir)
    requires t in w.store.counters && i < |w.threads|
  {
    Adding(w.threads[i], t, d) && !Tracked(w, t, d)
  }

  // ---- one step ----

  /** The thread's next step swaps this direction of the counter to zero. */
  predicate Emptying<T(==), N, O>(th: Thread<T, N, O>, t: T, d: Dir) {
    && th.Reporter? && (if d.Up? then th.phase.SwapUp? else th.phase.SwapDown?)
    && |th.cur| == 1 && th.cur[0].tag == t
  }

  /** What a step does to one counter's direction: an add raises it, a swap empties it, and nothing else touches it. */
  ghost predicate CellStep<T, N, O>(
    s: Store<T, N, O>, th: Thread<T, N, O>, s': Store<T, N, O>, th': Thread<T, N, O>, t: T, d: Dir)
    requires t in s.counters && t in s'.counters
  {
    var c, c' := s.counters[t], s'.counters[t];
    if Adding(th, t, d) then
      && At(c'.held, d) == At(c.held, d) + AddedBy(th, t, d) && c'.dirty == c.dirty
      && !Swapping(th, t, d) && !Swapping(th', t, d)
    else
      && At(c'.held, d) == (if Emptying(th, t, d) then 0 else At(c.held, d))
      && (At(c'.held, d) > 0 ==>
            && (c.dirty ==> c'.dirty || Swapping(th', t, d))
            && (Swapping(th, t, d) ==> Swapping(th', t, d)))
  }

  lemma StepOnCell<T(!new), N(!new), O(!new)>(
    nm: Naming<T, N, O>, s: Store<T, N, O>, th: Thread<T, N, O>, ch: Choice<T>, t: T, d: Dir)
    requires Fits(nm, s, th) && Roomy(s, th) && Bounded(s) && Bounded(ThreadStep(nm, s, th, ch).0) && t in s.counters
    ensures var (s', th') := ThreadStep(nm, s, th, ch);
            s'.counters.Keys == s.counters.Keys && CellStep(s, th, s', th', t, d)
  {
    hide LinesMatch, Reported, SumOf, AdderStep, LoopStep, TakeStep, RestoreStep, Drains, CellStep;
    KeysKept(nm, s, th, ch);
    if th.Adder? {
      AdderOnCell(s, th, t, d);
    } else if th.phase.Loop? {
      LoopOnCell(nm, s, th, t, d);
    } else if th.phase.SwapUp? || th.phase.SwapDown? || th.phase.Decide? {
      TakeOnCell(nm, s, th, t, d);
    } else if th.phase.RestoreMark? || th.phase.RestoreInsert? || th.phase.RestoreUp? || th.phase.RestoreDown? {
      RestoreOnCell(nm, s, th, t, d);
    } else {
      IdleOnCell(s, th, ThreadStep(nm, s, th, ch).0, ThreadStep(nm, s, th, ch).1, t, d);
    }
  }

  lemma IdleOnCell<T(!new), N(!new), O(!new)>(
    s: Store<T, N, O>, th: Thread<T, N, O>, s': Store<T, N, O>, th': Thread<T, N, O>, t: T, d: Dir)
    requires th.Reporter? && (th.phase.Collect? || th.phase.Send? || th.phase.Finished?)
    requires s'.counters == s.counters && t in s.counters
    ensures CellStep(s, th, s', th', t, d)
  {
  }

  lemma AdderOnCell<T(!new), N(!new), O(!new)>(s: Store<T, N, O>, th: Thread<T, N, O>, t: T, d: Dir)
    requires th.Adder? && th.tag in s.counters && Roomy(s, th) && Bounded(AdderStep(s, th).0) && t in s.counters
    ensures var (s', th') := AdderStep(s, th); t in s'.counters && CellStep(s, th, s', th', t, d)
  {
    if th.stage == Add {
      var c := s.counters[th.tag];
      assert At(c.held, th.dir) + InHand(th, th.tag, th.dir) <= At(c.added, th.dir);
      assert At(AdderStep(s, th).0.counters[th.tag].added, th.dir) < LIMIT;
    }
  }

  lemma LoopOnCell<T(!new), N(!new), O(!new)>(nm: Naming<T, N, O>, s: Store<T, N, O>, r: Thread<T, N, O>, t: T, d: Dir)
    requires r.Reporter? && r.phase.Loop? && Fits(nm, s, r) && t in s.counters
    ensures var (s', r') := LoopStep(s, r); t in s'.counters && CellStep(s, r, s', r', t, d)
  {
    if r.todo == [] {
      DiscardsAll(s.counters, r.taken, t, d);
    }
  }

  lemma TakeOnCell<T(!new), N(!new), O(!new)>(nm: Naming<T, N, O>, s: Store<T, N, O>, r: Thread<T, N, O>, t: T, d: Dir)
    requires r.Reporter? && (r.phase.SwapUp? || r.phase.SwapDown? || r.phase.Decide?)
    requires Fits(nm, s, r) && t in s.counters
    ensures var (s', r') := TakeStep(nm, s, r); t in s'.counters && CellStep(s, r, s', r', t, d)
  {
  }

  lemma RestoreOnCell<T(!new), N(!new), O(!new)>(
    nm: Naming<T, N, O>, s: Store<T, N, O>, r: Thread<T, N, O>, t: T, d: Dir)
    requires r.Reporter?
    requires r.phase.RestoreMark? || r.phase.RestoreInsert? || r.phase.RestoreUp? || r.phase.RestoreDown?
    requires Fits(nm, s, r) && Roomy(s, r) && t in s.counters && Bounded(s)
    ensures var (s', r') := RestoreStep(s, r); t in s'.counters && CellStep(s, r, s', r', t, d)
  {
    hide Roomy, Bounded, LinesMatch;
    if r.back != [] {
      RestoreRoom(s, r, Up);
      RestoreRoom(s, r, Down);
    }
  }

  /** From a world in which nothing is overlooked, a step leaves bytes overlooked exactly when it is a late add. */
  lemma OverlookedExactlyByLateAdd<T(!new), N(!new), O(!new)>(
    nm: Naming<T, N, O>, w: World<T, N, O>, i: nat, ch: Choice<T>, t: T, d: Dir)
    requires Shape(nm, w) && Conserved(nm, w) && Bounded(w.store) && i < |w.threads| && t in w.store.counters
    requires Bounded(Next(nm, w, Act(i, ch)).store) && NotLost(w, t, d)
    ensures t in Next(nm, w, Act(i, ch)).store.counters
    ensures !NotLost(Next(nm, w, Act(i, ch)), t, d) <==> LateAdd(w, i, t, d)
  {
    hide ThreadStep, Bounded, Fits, AllAttributed, LinesKnown, Swapping, Adding;
    var th := w.threads[i];
    assert Fits(nm, w.store, th);
    RoomyThread(nm, w, i);
    StepOnCell(nm, w.store, th, ch, t, d);
    var (s', th') := ThreadStep(nm, w.store, th, ch);
    var w' := Next(nm, w, Act(i, ch));
    assert w'.threads[i] == th' && forall j :: 0 <= j < |w.threads| && j != i ==> w'.threads[j] == w.threads[j];
    if j: int :| 0 <= j < |w.threads| && Swapping(w.threads[j], t, d) {
      assert j != i ==> Swapping(w'.threads[j], t, d);
    }
    if j: int :| 0 <= j < |w'.threads| && Swapping(w'.threads[j], t, d) {
      assert j != i ==> Swapping(w.threads[j], t, d);
    }
  }

  // ---- whole runs ----

  ghost predicate IsLate<T(!new), N, O>(w: World<T, N, O>, a: Action<T, N, O>) {
    a.Act? && a.i < |w.threads| && exists t, d :: t in w.store.counters && LateAdd(w, a.i, t, d)
  }

  /** Nothing is overlooked, at any moment of the run. */
  ghost predicate AlwaysTracked<T(!new), N(!new), O(!new)>(
    nm: Naming<T, N, O>, w: World<T, N, O>, acts: seq<Action<T, N, O>>, w': World<T, N, O>)
    requires Shape(nm, w) && Leads(nm, w, acts, w')
    decreases |acts|
  {
    && AllTracked(w)
    && (acts == [] || (NextKeepsShape(nm, w, acts[0]); AlwaysTracked(nm, Next(nm, w, acts[0]), acts[1..], w')))
  }

  /** No step of the run is a late add. */
  ghost predicate NeverLate<T(!new), N(!new), O(!new)>(
    nm: Naming<T, N, O>, w: World<T, N, O>, acts: seq<Action<T, N, O>>, w': World<T, N, O>)
    requires Shape(nm, w) && Leads(nm, w, acts, w')
    decreases |acts|
  {
    acts == []
    || (!IsLate(w, acts[0]) && (NextKeepsShape(nm, w, acts[0]); NeverLate(nm, Next(nm, w, acts[0]), acts[1..], w')))
  }

  lemma NextTracked<T(!new), N(!new), O(!new)>(nm: Naming<T, N, O>, w: World<T, N, O>, a: Action<T, N, O>)
    requires Shape(nm, w) && Enabled(nm, w, a) && Conserved(nm, w) && AllTracked(w)
    requires Bounded(w.store) && Bounded(Next(nm, w, a).store)
    ensures AllTracked(Next(nm, w, a)) <==> !IsLate(w, a)
  {
    hide Shape, Conserved, Bounded, LateAdd, Enabled, ThreadStep;
    var w' := Next(nm, w, a);
    if a.Act? {
      ActKeys(nm, w, a.i, a.choice);
      forall t, d | t in w.store.counters ensures !NotLost(w', t, d) <==> LateAdd(w, a.i, t, d) {
        OverlookedExactlyByLateAdd(nm, w, a.i, a.choice, t, d);
      }
    } else {
      forall t, d | t in w'.store.counters ensures NotLost(w', t, d) {
        QuietTracked(nm, w, a, t, d);
      }
    }
  }

  lemma ActKeys<T(!new), N(!new), O(!new)>(nm: Naming<T, N, O>, w: World<T, N, O>, i: nat, ch: Choice<T>)
    requires Shape(nm, w) && Enabled(nm, w, Act(i, ch))
    ensures i < |w.threads| && Next(nm, w, Act(i, ch)).store.counters.Keys == w.store.counters.Keys
  {
    assert Fits(nm, w.store, w.threads[i]);
    KeysKept(nm, w.store, w.threads[i], ch);
  }

  lemma QuietTracked<T(!new), N(!new), O(!new)>(
    nm: Naming<T, N, O>, w: World<T, N, O>, a: Action<T, N, O>, t: T, d: Dir)
    requires Shape(nm, w) && Enabled(nm, w, a) && !a.Act? && AllTracked(w) && t in Next(nm, w, a).store.counters
    ensures NotLost(Next(nm, w, a), t, d)
  {
    hide Shape, Swapping, Fresh, Attributed;
    var w' := Next(nm, w, a);
    if t in w.store.counters {
      assert NotLost(w, t, d);
      if j: int :| 0 <= j < |w.threads| && Swapping(w.threads[j], t, d) {
        assert w'.threads[j] == w.threads[j];
      }
    }
  }

  /** Over every run whose totals stay below the limit: counters with bytes are dirty or about to be taken, at
      every moment, exactly when no step of the run is a late add. */
  lemma {:induction false} TrackedExactlyWithoutLateAdds<T(!new), N(!new), O(!new)>(
    nm: Naming<T, N, O>, w: World<T, N, O>, acts: seq<Action<T, N, O>>, w': World<T, N, O>)
    requires Shape(nm, w) && Conserved(nm, w) && AllTracked(w) && Leads(nm, w, acts, w') && Bounded(w'.store)
    ensures AlwaysTracked(nm, w, acts, w') <==> NeverLate(nm, w, acts, w')
    ensures AlwaysTracked(nm, w, acts, w') ==> AllTracked(w')
    decreases |acts|
  {
    hide Shape, Conserved, AllTracked, IsLate, Bounded, Next, Enabled;
    if acts != [] {
      NextKeepsShape(nm, w, acts[0]);
      var w1 := Next(nm, w, acts[0]);
      LeadsKeepsShape(nm, w, acts, w');
      LeadsKeepsShape(nm, w1, acts[1..], w');
      BoundedEarlier(w.store, w'.store);
      BoundedEarlier(w1.store, w'.store);
      NextConserves(nm, w, acts[0]);
      NextTracked(nm, w, acts[0]);
      if AllTracked(w1) {
        TrackedExactlyWithoutLateAdds(nm, w1, acts[1..], w');
      } else {
        UntrackedStays(nm, w1, acts[1..], w');
      }
    }
  }

  lemma UntrackedStays<T(!new), N(!new), O(!new)>(
    nm: Naming<T, N, O>, w: World<T, N, O>, acts: seq<Action<T, N, O>>, w': World<T, N, O>)
    requires Shape(nm, w) && Leads(nm, w, acts, w') && !AllTracked(w)
    ensures !AlwaysTracked(nm, w, acts, w')
  {
  }

  // ---- exactly the dirty counters are listed ----

  function Occurrences<T(==)>(tags: seq<T>, t: T): nat {
    if tags == [] then 0 else (if tags[0] == t then 1 else 0) + Occurrences(tags[1..], t)
  }

  /** How often the thread has the tag listed or is about to list it. */
  function ListingsBy<T(==), N, O>(th: Thread<T, N, O>, t: T): nat {
    match th
    case Adder(tag, _, _, stage) => if stage.Insert? && tag == t then 1 else 0
    case Reporter(_, _, phase, todo, _, _, _, back, _) =>
      Occurrences(todo, t) + if phase.RestoreInsert? && back != [] && back[0].tag == t then 1 else 0
  }

  function ListingsByAll<T(==), N, O>(ths: seq<Thread<T, N, O>>, t: T): nat {
    if ths == [] then 0 else ListingsBy(ths[0], t) + ListingsByAll(ths[1..], t)
  }

  function InActive<T(==), N, O>(s: Store<T, N, O>, t: T): nat { if t in s.active then 1 else 0 }

  function DirtyFlag<T(==), N, O>(s: Store<T, N, O>, t: T): nat {
    if t in s.counters && s.counters[t].dirty then 1 else 0
  }

  /** A tag is listed once, in one place, while its counter is dirty, and nowhere otherwise. */
  ghost predicate ListedOnce<T(!new), N, O>(w: World<T, N, O>) {
    forall t :: InActive(w.store, t) + ListingsByAll(w.threads, t) == DirtyFlag(w.store, t)
  }

  lemma {:induction false} OccurrencesOf<T>(tags: seq<T>, t: T)
    ensures Occurrences(tags, t) > 0 <==> t in tags
    ensures Distinct(tags) ==> Occurrences(tags, t) == if t in tags then 1 else 0
  {
    if tags != [] {
      OccurrencesOf(tags[1..], t);
      assert tags == [tags[0]] + tags[1..];
      if Distinct(tags) {
        assert Distinct(tags[1..]);
        assert tags[0] !in tags[1..];
      }
    }
  }

  /** A step moves listings along with the flag. */
  ghost predicate ListStep<T, N, O>(
    s: Store<T, N, O>, th: Thread<T, N, O>, s': Store<T, N, O>, th': Thread<T, N, O>, t: T)
  {
    InActive(s', t) + ListingsBy(th', t) + DirtyFlag(s, t) == InActive(s, t) + ListingsBy(th, t) + DirtyFlag(s', t)
  }

  lemma StepLists<T(!new), N(!new), O(!new)>(
    nm: Naming<T, N, O>, s: Store<T, N, O>, th: Thread<T, N, O>, ch: Choice<T>, t: T)
    requires Fits(nm, s, th) && InActive(s, t) + ListingsBy(th, t) <= DirtyFlag(s, t)
    ensures var (s', th') := ThreadStep(nm, s, th, ch); ListStep(s, th, s', th', t)
  {
    hide LinesMatch, SumOf, FetchAdd, LoopStep, TakeStep, RestoreStep, ListStep, Drains;
    if th.Adder? {
      AdderLists(s, th, t);
    } else if th.phase.Loop? {
      LoopLists(nm, s, th, t);
    } else if th.phase.SwapUp? || th.phase.SwapDown? || th.phase.Decide? {
      TakeLists(nm, s, th, t);
    } else if th.phase.RestoreMark? || th.phase.RestoreInsert? || th.phase.RestoreUp? || th.phase.RestoreDown? {
      RestoreLists(nm, s, th, t);
    } else {
      IdleLists(nm, s, th, ch, t);
    }
  }

  lemma AdderLists<T(!new), N(!new), O(!new)>(s: Store<T, N, O>, th: Thread<T, N, O>, t: T)
    requires th.Adder? && th.tag in s.counters && InActive(s, t) + ListingsBy(th, t) <= DirtyFlag(s, t)
    ensures var (s', th') := AdderStep(s, th); ListStep(s, th, s', th', t)
  {
  }

  lemma LoopLists<T(!new), N(!new), O(!new)>(nm: Naming<T, N, O>, s: Store<T, N, O>, r: Thread<T, N, O>, t: T)
    requires r.Reporter? && r.phase.Loop? && Fits(nm, s, r)
    requires InActive(s, t) + ListingsBy(r, t) <= DirtyFlag(s, t)
    ensures var (s', r') := LoopStep(s, r); ListStep(s, r, s', r', t)
  {
    hide LinesMatch;
    if r.todo == [] {
      DiscardKeys(s.counters, r.taken);
      if t in s.counters {
        DiscardsAll(s.counters, r.taken, t, Up);
      }
    }
  }

  lemma TakeLists<T(!new), N(!new), O(!new)>(nm: Naming<T, N, O>, s: Store<T, N, O>, r: Thread<T, N, O>, t: T)
    requires r.Reporter? && (r.phase.SwapUp? || r.phase.SwapDown? || r.phase.Decide?) && Fits(nm, s, r)
    ensures var (s', r') := TakeStep(nm, s, r); ListStep(s, r, s', r', t)
  {
    hide LinesMatch;
  }

  lemma RestoreLists<T(!new), N(!new), O(!new)>(nm: Naming<T, N, O>, s: Store<T, N, O>, r: Thread<T, N, O>, t: T)
    requires r.Reporter?
    requires r.phase.RestoreMark? || r.phase.RestoreInsert? || r.phase.RestoreUp? || r.phase.RestoreDown?
    requires Fits(nm, s, r) && InActive(s, t) + ListingsBy(r, t) <= DirtyFlag(s, t)
    ensures var (s', r') := RestoreStep(s, r); ListStep(s, r, s', r', t)
  {
    hide LinesMatch, Occurrences;
  }

  lemma IdleLists<T(!new), N(!new), O(!new)>(
    nm: Naming<T, N, O>, s: Store<T, N, O>, th: Thread<T, N, O>, ch: Choice<T>, t: T)
    requires th.Reporter? && (th.phase.Collect? || th.phase.Send? || th.phase.Finished?)
    requires Fits(nm, s, th)
    ensures var (s', th') := ThreadStep(nm, s, th, ch); ListStep(s, th, s', th', t)
  {
    hide LinesMatch;
    OccurrencesOf(ch.order, t);
  }

  lemma {:induction false} ListingsUpdate<T, N, O>(ths: seq<Thread<T, N, O>>, i: nat, th: Thread<T, N, O>, t: T)
    requires i < |ths|
    ensures ListingsByAll(ths[i := th], t) == ListingsByAll(ths, t) - ListingsBy(ths[i], t) + ListingsBy(th, t)
    ensures ListingsBy(ths[i], t) <= ListingsByAll(ths, t)
  {
    hide ListingsBy;
    if i > 0 {
      ListingsUpdate(ths[1..], i - 1, th, t);
      assert ths[i := th][1..] == ths[1..][i - 1 := th];
    }
  }

  lemma {:induction false} ListingsAppend<T, N, O>(ths: seq<Thread<T, N, O>>, th: Thread<T, N, O>, t: T)
    ensures ListingsByAll(ths + [th], t) == ListingsByAll(ths, t) + ListingsBy(th, t)
  {
    hide ListingsBy;
    if ths == [] {
      assert ths + [th] == [th] && [th][1..] == [];
      assert ListingsByAll<T, N, O>([], t) == 0;
    } else {
      ListingsAppend(ths[1..], th, t);
      assert (ths + [th])[1..] == ths[1..] + [th];
    }
  }

  lemma NextKeepsListedOnce<T(!new), N(!new), O(!new)>(nm: Naming<T, N, O>, w: World<T, N, O>, a: Action<T, N, O>)
    requires Shape(nm, w) && Enabled(nm, w, a) && ListedOnce(w)
    ensures ListedOnce(Next(nm, w, a))
  {
    hide ThreadStep, Fits, AllAttributed, LinesKnown, ListingsBy, ListingsByAll, Fresh, Attributed;
    var w' := Next(nm, w, a);
    forall t ensures InActive(w'.store, t) + ListingsByAll(w'.threads, t) == DirtyFlag(w'.store, t) {
      assert InActive(w.store, t) + ListingsByAll(w.threads, t) == DirtyFlag(w.store, t);
      match a {
        case Act(i, ch) =>
          assert Fits(nm, w.store, w.threads[i]);
          var th' := ThreadStep(nm, w.store, w.threads[i], ch).1;
          ListingsUpdate(w.threads, i, th', t);
          StepLists(nm, w.store, w.threads[i], ch, t);
        case Spawn(th) =>
          ListingsAppend(w.threads, th, t);
          FreshListsNothing(nm, w.store, th, t);
        case Register(u) =>
      }
    }
  }

  lemma FreshListsNothing<T, N, O>(nm: Naming<T, N, O>, s: Store<T, N, O>, th: Thread<T, N, O>, t: T)
    requires Fresh(nm, s, th)
    ensures ListingsBy(th, t) == 0
  {
  }

  lemma {:induction false} RunKeepsListedOnce<T(!new), N(!new), O(!new)>(
    nm: Naming<T, N, O>, w: World<T, N, O>, acts: seq<Action<T, N, O>>, w': World<T, N, O>)
    requires Shape(nm, w) && ListedOnce(w) && Leads(nm, w, acts, w')
    ensures ListedOnce(w')
    decreases |acts|
  {
    hide Shape, ListedOnce, Next, Enabled;
    if acts != [] {
      NextKeepsShape(nm, w, acts[0]);
      NextKeepsListedOnce(nm, w, acts[0]);
      RunKeepsListedOnce(nm, Next(nm, w, acts[0]), acts[1..], w');
    }
  }

  /** The thread is about to list the tag, or has it listed. */
  predicate Listing<T(==), N, O>(th: Thread<T, N, O>, t: T) {
    match th
    case Adder(tag, _, _, stage) => stage.Insert? && tag == t
    case Reporter(_, _, phase, todo, _, _, _, back, _) =>
      t in todo || (phase.RestoreInsert? && back != [] && back[0].tag == t)
  }

  predicate Listed<T(==), N, O>(w: World<T, N, O>, t: T) {
    t in w.store.active || exists i :: 0 <= i < |w.threads| && Listing(w.threads[i], t)
  }

  lemma ListingCounts<T, N, O>(th: Thread<T, N, O>, t: T)
    ensures ListingsBy(th, t) > 0 <==> Listing(th, t)
  {
    if th.Reporter? {
      OccurrencesOf(th.todo, t);
    }
  }

  lemma {:induction false} SomeoneLists<T, N, O>(ths: seq<Thread<T, N, O>>, t: T)
    ensures ListingsByAll(ths, t) > 0 <==> exists i :: 0 <= i < |ths| && Listing(ths[i], t)
  {
    hide ListingsBy, Listing;
    if ths != [] {
      SomeoneLists(ths[1..], t);
      ListingCounts(ths[0], t);
      if i: int :| 0 <= i < |ths| && Listing(ths[i], t) {
        assert i > 0 ==> ths[1..][i - 1] == ths[i];
      }
      if i: int :| 0 <= i < |ths[1..]| && Listing(ths[1..][i], t) {
        assert ths[i + 1] == ths[1..][i];
      }
    }
  }

  /** After every run, a tag is active, about to be listed or in a reporter's list exactly when its counter is dirty. */
  lemma ListedExactlyDirty<T(!new), N(!new), O(!new)>(
    nm: Naming<T, N, O>, acts: seq<Action<T, N, O>>, w: World<T, N, O>, t: T)
    requires Shape(nm, Start()) && Leads(nm, Start(), acts, w)
    ensures Listed(w, t) <==> t in w.store.counters && w.store.counters[t].dirty
  {
    RunKeepsListedOnce(nm, Start(), acts, w);
    DirtyIsListed(w, t);
  }

  lemma DirtyIsListed<T(!new), N, O>(w: World<T, N, O>, t: T)
    requires ListedOnce(w)
    ensures Listed(w, t) <==> t in w.store.counters && w.store.counters[t].dirty
  {
    hide ListingsByAll, Listing;
    SomeoneLists(w.threads, t);
    assert InActive(w.store, t) + ListingsByAll(w.threads, t) == DirtyFlag(w.store, t);
  }

  // ---- bytes nobody will look for ----

  /** The counter holds bytes, no list mentions it, and no reporter is about to take them. */
  predicate Unseen<T(==), N, O>(w: World<T, N, O>, t: T, d: Dir)
    requires t in w.store.counters
  {
    && At(w.store.counters[t].held, d) > 0
    && !Listed(w, t) && !exists i :: 0 <= i < |w.threads| && Swapping(w.threads[i], t, d)
  }

  ghost predicate AllSeen<T(!new), N, O>(w: World<T, N, O>) {
    forall t, d :: t in w.store.counters ==> !Unseen(w, t, d)
  }

  lemma SeenIsTracked<T(!new), N, O>(w: World<T, N, O>)
    requires ListedOnce(w)
    ensures forall t, d :: t in w.store.counters ==> (Unseen(w, t, d) <==> !NotLost(w, t, d))
    ensures AllSeen(w) <==> AllTracked(w)
  {
    hide Listed, Swapping, ListedOnce;
    forall t, d | t in w.store.counters ensures Unseen(w, t, d) <==> !NotLost(w, t, d) {
      DirtyIsListed(w, t);
    }
  }

  /** A step leaves bytes unseen, where they were not, exactly when it is a late add. */
  lemma UnseenExactlyByLateAdd<T(!new), N(!new), O(!new)>(
    nm: Naming<T, N, O>, w: World<T, N, O>, i: nat, ch: Choice<T>, t: T, d: Dir)
    requires Shape(nm, w) && Conserved(nm, w) && ListedOnce(w) && Bounded(w.store)
    requires i < |w.threads| && t in w.store.counters
    requires Bounded(Next(nm, w, Act(i, ch)).store) && !Unseen(w, t, d)
    ensures t in Next(nm, w, Act(i, ch)).store.counters
    ensures Unseen(Next(nm, w, Act(i, ch)), t, d) <==> LateAdd(w, i, t, d)
  {
    hide ThreadStep, Bounded, Conserved, Unseen, LateAdd, ListedOnce, NotLost;
    NextKeepsListedOnce(nm, w, Act(i, ch));
    SeenIsTracked(w);
    OverlookedExactlyByLateAdd(nm, w, i, ch, t, d);
    SeenIsTracked(Next(nm, w, Act(i, ch)));
  }

  /** No bytes are unseen, at any moment of the run. */
  ghost predicate AlwaysSeen<T(!new), N(!new), O(!new)>(
    nm: Naming<T, N, O>, w: World<T, N, O>, acts: seq<Action<T, N, O>>, w': World<T, N, O>)
    requires Shape(nm, w) && Leads(nm, w, acts, w')
    decreases |acts|
  {
    && AllSeen(w)
    && (acts == [] || (NextKeepsShape(nm, w, acts[0]); AlwaysSeen(nm, Next(nm, w, acts[0]), acts[1..], w')))
  }

  lemma {:induction false} AlwaysSeenIsTracked<T(!new), N(!new), O(!new)>(
    nm: Naming<T, N, O>, w: World<T, N, O>, acts: seq<Action<T, N, O>>, w': World<T, N, O>)
    requires Shape(nm, w) && ListedOnce(w) && Leads(nm, w, acts, w')
    ensures AlwaysSeen(nm, w, acts, w') <==> AlwaysTracked(nm, w, acts, w')
    decreases |acts|
  {
    hide Shape, ListedOnce, Next, Enabled, AllSeen, AllTracked;
    SeenIsTracked(w);
    if acts != [] {
      NextKeepsShape(nm, w, acts[0]);
      NextKeepsListedOnce(nm, w, acts[0]);
      AlwaysSeenIsTracked(nm, Next(nm, w, acts[0]), acts[1..], w');
    }
  }

  /** The thread has nothing more to do. */
  predicate Done<T, N, O>(th: Thread<T, N, O>) { if th.Adder? then th.stage.Added? else th.phase.Finished? }

  /** Over every run whose totals stay below the limit: at every moment a counter with bytes is active, in the hands of
      a thread that lists it, or about to be taken, exactly when no step of the run is a late add. */
  lemma BytesListedExactlyWithoutLateAdds<T(!new), N(!new), O(!new)>(
    nm: Naming<T, N, O>, acts: seq<Action<T, N, O>>, w: World<T, N, O>)
    requires Shape(nm, Start()) && Leads(nm, Start(), acts, w) && Bounded(w.store)
    ensures AlwaysSeen(nm, Start(), acts, w) <==> NeverLate(nm, Start(), acts, w)
    ensures AlwaysSeen(nm, Start(), acts, w) ==> AllSeen(w)
  {
    hide AlwaysTracked, NeverLate, AlwaysSeen, Leads;
    TrackedExactlyWithoutLateAdds(nm, Start(), acts, w);
    AlwaysSeenIsTracked(nm, Start(), acts, w);
    RunKeepsListedOnce(nm, Start(), acts, w);
    SeenIsTracked(w);
  }

  /** Once all threads are done, the active counters are the dirty ones, and bytes are unseen exactly in those that
      are not active. */
  lemma DoneMeansActive<T(!new), N(!new), O(!new)>(
    nm: Naming<T, N, O>, acts: seq<Action<T, N, O>>, w: World<T, N, O>, t: T, d: Dir)
    requires Shape(nm, Start()) && Leads(nm, Start(), acts, w) && t in w.store.counters
    requires forall i :: 0 <= i < |w.threads| ==> Done(w.threads[i])
    ensures t in w.store.active <==> w.store.counters[t].dirty
    ensures Unseen(w, t, d) <==> At(w.store.counters[t].held, d) > 0 && t !in w.store.active
  {
    ListedExactlyDirty(nm, acts, w, t);
    LeadsKeepsShape(nm, Start(), acts, w);
    forall i | 0 <= i < |w.threads| ensures !Swapping(w.threads[i], t, d) && !Listing(w.threads[i], t) {
      assert Fits(nm, w.store, w.threads[i]);
    }
  }
}
