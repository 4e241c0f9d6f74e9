/** Concrete runs of the accounting machine that show what single atomic operations do not give. */
module AccountingTraces {
  import opened Common
  import opened Accounting
  import opened AccountingRuns
  import opened AccountingListing

  /** One registered counter, and these threads. */
  function Around<T, N, O>(t: T, cell: Cell, active: set<T>, threads: seq<Thread<T, N, O>>): World<T, N, O> {
    World(Store(map[t := cell], active, []), threads)
  }

  /** A reporter that has taken no bytes so far. */
  function Idle<T, N, O>(node: N, phase: Phase, todo: seq<T>): Thread<T, N, O> {
    Reporter(node, false, phase, todo, [], [], [], [], false)
  }

  /** A reporter in the middle of taking one counter. */
  function Taking<T, N, O>(node: N, phase: Phase, t: T, a: Amount): Thread<T, N, O> {
    Reporter(node, false, phase, [], [Taken(t, a)], [], [], [], false)
  }

  /** Reached from the start, without the counter ever holding `never` on the way. */
  ghost predicate Reached<T(!new), N(!new), O(!new)>(
    nm: Naming<T, N, O>, acts: seq<Action<T, N, O>>, w: World<T, N, O>, t: T, never: Amount)
  {
    Shape(nm, Start()) && Shape(nm, w) && Leads(nm, Start(), acts, w) && Avoids(nm, Start(), acts, w, t, never)
  }

  predicate Elsewhere<T(==), N, O>(w: World<T, N, O>, t: T, never: Amount) {
    t in w.store.counters ==> w.store.counters[t].held != never
  }

  ghost predicate Avoids<T(!new), N(!new), O(!new)>(
    nm: Naming<T, N, O>, w: World<T, N, O>, acts: seq<Action<T, N, O>>, w': World<T, N, O>, t: T, never: Amount)
    requires Shape(nm, w) && Leads(nm, w, acts, w')
    decreases |acts|
  {
    && Elsewhere(w, t, never)
    && (acts == [] || (NextKeepsShape(nm, w, acts[0]); Avoids(nm, Next(nm, w, acts[0]), acts[1..], w', t, never)))
  }

  lemma {:induction false} AvoidsFurther<T(!new), N(!new), O(!new)>(
    nm: Naming<T, N, O>, w: World<T, N, O>, acts: seq<Action<T, N, O>>, w': World<T, N, O>, a: Action<T, N, O>,
    t: T, never: Amount)
    requires Shape(nm, w) && Leads(nm, w, acts, w') && Shape(nm, w') && Enabled(nm, w', a)
    requires Avoids(nm, w, acts, w', t, never) && Elsewhere(Next(nm, w', a), t, never)
    ensures Leads(nm, w, acts + [a], Next(nm, w', a)) && Avoids(nm, w, acts + [a], Next(nm, w', a), t, never)
    decreases |acts|
  {
    hide Shape, Enabled, Next, Elsewhere;
    LeadsFurther(nm, w, acts, w', a);
    if acts == [] {
      assert acts + [a] == [a] && [a][1..] == [];
    } else {
      NextKeepsShape(nm, w, acts[0]);
      AvoidsFurther(nm, Next(nm, w, acts[0]), acts[1..], w', a, t, never);
      assert (acts + [a])[1..] == acts[1..] + [a];
    }
  }

  lemma Further<T(!new), N(!new), O(!new)>(
    nm: Naming<T, N, O>, acts: seq<Action<T, N, O>>, w: World<T, N, O>, a: Action<T, N, O>, t: T, never: Amount)
    requires Reached(nm, acts, w, t, never) && Enabled(nm, w, a) && Elsewhere(Next(nm, w, a), t, never)
    ensures Reached(nm, acts + [a], Next(nm, w, a), t, never)
  {
    LeadsFurther(nm, Start(), acts, w, a);
    AvoidsFurther(nm, Start(), acts, w, a, t, never);
  }

  /** One step of thread `i`, known by what it does. */
  lemma Moves<T(!new), N(!new), O(!new)>(
    nm: Naming<T, N, O>, acts: seq<Action<T, N, O>>, t: T, never: Amount, w: World<T, N, O>, i: nat, w': World<T, N, O>)
    returns (acts': seq<Action<T, N, O>>)
    requires Reached(nm, acts, w, t, never) && i < |w.threads| == |w'.threads| && Elsewhere(w', t, never)
    requires Fits(nm, w.store, w.threads[i]) ==>
               var (s, th) := ThreadStep(nm, w.store, w.threads[i], Choice([t], true));
               && s.counters == w'.store.counters && s.active == w'.store.active && s.reports == w'.store.reports
               && th == w'.threads[i]
    requires w'.threads == w.threads[i := w'.threads[i]]
    ensures Reached(nm, acts', w', t, never)
  {
    hide ThreadStep, Fits, Leads, Avoids, AllAttributed, LinesKnown;
    assert Fits(nm, w.store, w.threads[i]);
    var a := Act(i, Choice([t], true));
    assert Next(nm, w, a) == w';
    Further(nm, acts, w, a, t, never);
    acts' := acts + [a];
  }

  lemma Registered<T(!new), N(!new), O(!new)>(
    nm: Naming<T, N, O>, t: T, never: Amount) returns (acts: seq<Action<T, N, O>>)
    requires Attributed(nm, t) && never != Zero
    ensures Reached(nm, acts, Around(t, NewCell, {}, []), t, never)
  {
    Further(nm, [], Start(), Register(t), t, never);
    acts := [] + [Register(t)];
  }

  /** Starting threads one after the other. */
  lemma {:induction false} Spawned<T(!new), N(!new), O(!new)>(
    nm: Naming<T, N, O>, t: T, never: Amount, ths: seq<Thread<T, N, O>>) returns (acts: seq<Action<T, N, O>>)
    requires Attributed(nm, t) && never != Zero
    requires forall i :: 0 <= i < |ths| ==> Fresh(nm, Store(map[t := NewCell], {}, []), ths[i])
    ensures Reached(nm, acts, Around(t, NewCell, {}, ths), t, never)
  {
    hide Reached, Fresh, Attributed;
    if ths == [] {
      acts := Registered(nm, t, never);
    } else {
      var front, last := ths[..|ths| - 1], ths[|ths| - 1];
      acts := Spawned(nm, t, never, front);
      SpawnOne(nm, acts, Around(t, NewCell, {}, front), last, t, never);
      acts := acts + [Spawn(last)];
      assert front + [last] == ths;
    }
  }

  lemma SpawnOne<T(!new), N(!new), O(!new)>(
    nm: Naming<T, N, O>, acts: seq<Action<T, N, O>>, w: World<T, N, O>, th: Thread<T, N, O>, t: T, never: Amount)
    requires Reached(nm, acts, w, t, never) && Fresh(nm, w.store, th) && Elsewhere(w, t, never)
    ensures Reached(nm, acts + [Spawn(th)], w.(threads := w.threads + [th]), t, never)
  {
    Further(nm, acts, w, Spawn(th), t, never);
  }

  const Dirtied := NewCell.(dirty := true)

  /** An adder marks and lists the counter, but has not added yet. */
  lemma MarkAndList<T(!new), N(!new), O(!new)>(
    nm: Naming<T, N, O>, acts: seq<Action<T, N, O>>, t: T, n: nat, never: Amount, rest: seq<Thread<T, N, O>>)
    returns (acts': seq<Action<T, N, O>>)
    requires 0 < n < U64 && never != Zero
    requires Reached(nm, acts, Around(t, NewCell, {}, [Adder(t, Up, n, Mark)] + rest), t, never)
    ensures Reached(nm, acts', Around(t, Dirtied, {t}, [Adder(t, Up, n, Add)] + rest), t, never)
  {
    hide Reached;
    var w0 := Around(t, NewCell, {}, [Adder(t, Up, n, Mark)] + rest);
    var w1 := Around(t, Dirtied, {}, [Adder(t, Up, n, Insert)] + rest);
    var w2 := Around(t, Dirtied, {t}, [Adder(t, Up, n, Add)] + rest);
    acts' := Moves(nm, acts, t, never, w0, 0, w1);
    acts' := Moves(nm, acts', t, never, w1, 0, w2);
  }

  /** A reporter drains the list and takes the flag down. */
  lemma DrainAndClean<T(!new), N(!new), O(!new)>(
    nm: Naming<T, N, O>, acts: seq<Action<T, N, O>>, t: T, node: N, never: Amount, rest: seq<Thread<T, N, O>>)
    returns (acts': seq<Action<T, N, O>>)
    requires never != Zero
    requires Reached(nm, acts, Around(t, Dirtied, {t}, rest + [Idle(node, Phase.Collect, [])]), t, never)
    ensures Reached(nm, acts', Around(t, NewCell, {}, rest + [Taking(node, SwapUp, t, Zero)]), t, never)
  {
    hide Reached;
    assert Drains([t], {t}) && [t][1..] == [] && [t][0] == t;
    var w0 := Around(t, Dirtied, {t}, rest + [Idle(node, Phase.Collect, [])]);
    var w1 := Around(t, Dirtied, {}, rest + [Idle(node, Loop, [t])]);
    var w2 := Around(t, NewCell, {}, rest + [Taking(node, SwapUp, t, Zero)]);
    acts' := Moves(nm, acts, t, never, w0, |rest|, w1);
    acts' := Moves(nm, acts', t, never, w1, |rest|, w2);
  }

  /** Swapping both directions of an empty counter. */
  lemma SwapNothing<T(!new), N(!new), O(!new)>(
    nm: Naming<T, N, O>, acts: seq<Action<T, N, O>>, t: T, node: N, never: Amount, rest: seq<Thread<T, N, O>>)
    returns (acts': seq<Action<T, N, O>>)
    requires never != Zero
    requires Reached(nm, acts, Around(t, NewCell, {}, rest + [Taking(node, SwapUp, t, Zero)]), t, never)
    ensures Reached(nm, acts', Around(t, NewCell, {}, rest + [Idle(node, Finished, [])]), t, never)
  {
    hide Reached;
    var w0 := Around(t, NewCell, {}, rest + [Taking(node, SwapUp, t, Zero)]);
    var w1 := Around(t, NewCell, {}, rest + [Taking(node, SwapDown, t, Zero)]);
    var w2 := Around(t, NewCell, {}, rest + [Taking(node, Decide, t, Zero)]);
    var w3 := Around(t, NewCell, {}, rest + [Idle(node, Loop, [])]);
    var w4 := Around(t, NewCell, {}, rest + [Idle(node, Finished, [])]);
    acts' := Moves(nm, acts, t, never, w0, |rest|, w1);
    acts' := Moves(nm, acts', t, never, w1, |rest|, w2);
    acts' := Moves(nm, acts', t, never, w2, |rest|, w3);
    acts' := Moves(nm, acts', t, never, w3, |rest|, w4);
  }

  /** Between single atomic operations a reporter can slip in: bytes end up in a counter that is neither dirty nor
      listed, with every thread finished. */
  lemma LateAddIsUnlisted<T(!new), N(!new), O(!new)>(nm: Naming<T, N, O>, t: T, node: N, n: nat)
    returns (acts: seq<Action<T, N, O>>, w: World<T, N, O>)
    requires Attributed(nm, t) && nm.nodes(node) && 0 < n < U64
    ensures Shape(nm, Start()) && Leads(nm, Start(), acts, w)
    ensures t in w.store.counters && w.store.counters[t].held.up == n
    ensures !Tracked(w, t, Up) && !Listed(w, t)
    ensures forall i :: 0 <= i < |w.threads| ==> Done(w.threads[i])
  {
    var never := Amount(0, 1);
    var r: Thread<T, N, O> := Idle(node, Phase.Collect, []);
    acts := Spawned(nm, t, never, [Adder(t, Up, n, Mark), r]);
    assert [Adder(t, Up, n, Mark), r] == [Adder(t, Up, n, Mark)] + [r];
    acts := MarkAndList(nm, acts, t, n, never, [r]);
    acts := DrainAndClean(nm, acts, t, node, never, [Adder(t, Up, n, Add)]);
    acts := SwapNothing(nm, acts, t, node, never, [Adder(t, Up, n, Add)]);
    var finished: Thread<T, N, O> := Idle(node, Finished, []);
    var w0 := Around(t, NewCell, {}, [Adder(t, Up, n, Add), finished]);
    assert [Adder(t, Up, n, Add)] + [finished] == w0.threads;
    w := Around(t, Cell(Amount(n, 0), false, Amount(n, 0), Zero), {}, [Adder(t, Up, n, Added), finished]);
    acts := Moves(nm, acts, t, never, w0, 0, w);
  }

  /** Two adders, and a reporter between its two swaps. */
  function Between<T, N, O>(
    t: T, node: N, cell: Cell, active: set<T>, a: Thread<T, N, O>, b: Thread<T, N, O>): World<T, N, O>
  {
    Around(t, cell, active, [a, b, Taking(node, SwapDown, t, Zero)])
  }

  /** A reporter between its two swaps lets both additions pass. */
  lemma AddBoth<T(!new), N(!new), O(!new)>(
    nm: Naming<T, N, O>, acts: seq<Action<T, N, O>>, t: T, node: N, n: nat, m: nat)
    returns (acts': seq<Action<T, N, O>>)
    requires 0 < n < U64 && 0 < m < U64
    requires Reached(nm, acts, Between(t, node, NewCell, {}, Adder(t, Up, n, Add), Adder(t, Down, m, Mark)),
                     t, Amount(0, m))
    ensures Reached(nm, acts',
                    Between(t, node, Cell(Amount(n, m), true, Amount(n, m), Zero), {t},
                            Adder(t, Up, n, Added), Adder(t, Down, m, Added)),
                    t, Amount(0, m))
  {
    hide Reached;
    var never := Amount(0, m);
    var a, r: Thread<T, N, O> := Adder(t, Up, n, Added), Taking(node, SwapDown, t, Zero);
    var c := Cell(Amount(n, 0), false, Amount(n, 0), Zero);
    var w0 := Around(t, NewCell, {}, [Adder(t, Up, n, Add), Adder(t, Down, m, Mark), r]);
    var w1 := Around(t, c, {}, [a, Adder(t, Down, m, Mark), r]);
    var w2 := Around(t, c.(dirty := true), {}, [a, Adder(t, Down, m, Insert), r]);
    var w3 := Around(t, c.(dirty := true), {t}, [a, Adder(t, Down, m, Add), r]);
    var w4 := Around(t, Cell(Amount(n, m), true, Amount(n, m), Zero), {t}, [a, Adder(t, Down, m, Added), r]);
    acts' := Moves(nm, acts, t, never, w0, 0, w1);
    acts' := Moves(nm, acts', t, never, w1, 1, w2);
    acts' := Moves(nm, acts', t, never, w2, 1, w3);
    acts' := Moves(nm, acts', t, never, w3, 1, w4);
  }

  /** Taking a counter is not atomic across directions: a reporter can take a pair of totals that the counter never
      held. */
  lemma TornTake<T(!new), N(!new), O(!new)>(nm: Naming<T, N, O>, t: T, node: N, n: nat, m: nat)
    returns (acts: seq<Action<T, N, O>>, w: World<T, N, O>)
    requires Attributed(nm, t) && nm.nodes(node) && 0 < n < U64 && 0 < m < U64
    ensures Shape(nm, Start()) && Leads(nm, Start(), acts, w) && Avoids(nm, Start(), acts, w, t, Amount(0, m))
    ensures |w.threads| == 3 && w.threads[2] == Taking(node, Decide, t, Amount(0, m))
  {
    var never := Amount(0, m);
    var a, b, r: Thread<T, N, O> := Adder(t, Up, n, Mark), Adder(t, Down, m, Mark), Idle(node, Phase.Collect, []);
    var added: Thread<T, N, O> := Adder(t, Up, n, Add);
    acts := Spawned(nm, t, never, [a, b, r]);
    assert [a, b, r] == [a] + [b, r];
    acts := MarkAndList(nm, acts, t, n, never, [b, r]);
    assert [added] + [b, r] == [added, b] + [r];
    acts := DrainAndClean(nm, acts, t, node, never, [added, b]);
    var w0 := Around(t, NewCell, {}, [added, b, Taking(node, SwapUp, t, Zero)]);
    assert w0.threads == [added, b] + [Taking(node, SwapUp, t, Zero)];
    acts := Moves(nm, acts, t, never, w0, 2, Around(t, NewCell, {}, [added, b, Taking(node, SwapDown, t, Zero)]));
    acts := AddBoth(nm, acts, t, node, n, m);
    var done: seq<Thread<T, N, O>> := [Adder(t, Up, n, Added), Adder(t, Down, m, Added)];
    var w1 := Around(t, Cell(Amount(n, m), true, Amount(n, m), Zero), {t}, done + [Taking(node, SwapDown, t, Zero)]);
    w := Around(t, Cell(Amount(n, 0), true, Amount(n, m), Zero), {t}, done + [Taking(node, Decide, t, never)]);
    assert w1.threads == [done[0], done[1], Taking(node, SwapDown, t, Zero)];
    acts := Moves(nm, acts, t, never, w1, 2, w);
  }
}
