/** When the pair of totals a reporter takes is one that the counter held. */
module AccountingTakes {
  import opened Accounting
  import opened AccountingRuns
  import opened AccountingListing

  ghost predicate Empties<T(!new), N, O>(w: World<T, N, O>, a: Action<T, N, O>, t: T, d: Dir) {
    a.Act? && a.i < |w.threads| && Emptying(w.threads[a.i], t, d)
  }

  ghost predicate Adds<T(!new), N, O>(w: World<T, N, O>, a: Action<T, N, O>, t: T, d: Dir) {
    a.Act? && a.i < |w.threads| && Adding(w.threads[a.i], t, d)
  }

  /** No step of the run swaps this total to zero. */
  ghost predicate NeverEmptied<T(!new), N(!new), O(!new)>(
    nm: Naming<T, N, O>, w: World<T, N, O>, acts: seq<Action<T, N, O>>, w': World<T, N, O>, t: T, d: Dir)
    requires Shape(nm, w) && Leads(nm, w, acts, w')
    decreases |acts|
  {
    acts == []
    || (!Empties(w, acts[0], t, d)
        && (NextKeepsShape(nm, w, acts[0]); NeverEmptied(nm, Next(nm, w, acts[0]), acts[1..], w', t, d)))
  }

  /** No step of the run adds to this total. */
  ghost predicate NeverAdded<T(!new), N(!new), O(!new)>(
    nm: Naming<T, N, O>, w: World<T, N, O>, acts: seq<Action<T, N, O>>, w': World<T, N, O>, t: T, d: Dir)
    requires Shape(nm, w) && Leads(nm, w, acts, w')
    decreases |acts|
  {
    acts == []
    || (!Adds(w, acts[0], t, d)
        && (NextKeepsShape(nm, w, acts[0]); NeverAdded(nm, Next(nm, w, acts[0]), acts[1..], w', t, d)))
  }

  /** What a step makes of a total: a swap empties it, an add raises it by its bytes. */
  ghost function TotalAfter<T(!new), N, O>(w: World<T, N, O>, a: Action<T, N, O>, t: T, d: Dir, total: nat): nat {
    if Empties(w, a, t, d) then 0 else total + if Adds(w, a, t, d) then AddedBy(w.threads[a.i], t, d) else 0
  }

  /** What the steps of a run make of a total, one after the other. */
  ghost function TotalOver<T(!new), N(!new), O(!new)>(
    nm: Naming<T, N, O>, w: World<T, N, O>, acts: seq<Action<T, N, O>>, w': World<T, N, O>, t: T, d: Dir, total: nat)
    : nat
    requires Shape(nm, w) && Leads(nm, w, acts, w')
    decreases |acts|
  {
    if acts == [] then total
    else
      NextKeepsShape(nm, w, acts[0]);
      TotalOver(nm, Next(nm, w, acts[0]), acts[1..], w', t, d, TotalAfter(w, acts[0], t, d, total))
  }

  lemma StepOnTotal<T(!new), N(!new), O(!new)>(
    nm: Naming<T, N, O>, w: World<T, N, O>, a: Action<T, N, O>, t: T, d: Dir)
    requires Shape(nm, w) && Enabled(nm, w, a) && Conserved(nm, w) && t in w.store.counters
    requires Bounded(w.store) && Bounded(Next(nm, w, a).store)
    ensures t in Next(nm, w, a).store.counters
    ensures At(Next(nm, w, a).store.counters[t].held, d) == TotalAfter(w, a, t, d, At(w.store.counters[t].held, d))
  {
    hide ThreadStep, Bounded, Fits, AllAttributed, LinesKnown, Swapping, Fresh, Attributed, AddedBy;
    if a.Act? {
      assert Fits(nm, w.store, w.threads[a.i]);
      RoomyThread(nm, w, a.i);
      StepOnCell(nm, w.store, w.threads[a.i], a.choice, t, d);
    }
  }

  /** A total follows the swaps and adds of any run. */
  lemma {:induction false} TotalFollowsSteps<T(!new), N(!new), O(!new)>(
    nm: Naming<T, N, O>, w: World<T, N, O>, acts: seq<Action<T, N, O>>, w': World<T, N, O>, t: T, d: Dir)
    requires Shape(nm, w) && Conserved(nm, w) && Leads(nm, w, acts, w') && Bounded(w'.store) && t in w.store.counters
    ensures t in w'.store.counters
    ensures At(w'.store.counters[t].held, d) == TotalOver(nm, w, acts, w', t, d, At(w.store.counters[t].held, d))
    decreases |acts|
  {
    hide Shape, Conserved, Bounded, Next, Enabled, TotalAfter;
    if acts != [] {
      NextKeepsShape(nm, w, acts[0]);
      var w1 := Next(nm, w, acts[0]);
      LeadsKeepsShape(nm, w, acts, w');
      LeadsKeepsShape(nm, w1, acts[1..], w');
      BoundedEarlier(w.store, w'.store);
      BoundedEarlier(w1.store, w'.store);
      NextConserves(nm, w, acts[0]);
      StepOnTotal(nm, w, acts[0], t, d);
      TotalFollowsSteps(nm, w1, acts[1..], w', t, d);
    }
  }

  /** Over a run that never empties a total, it never falls, and it is the same at the end exactly when nothing was
      added. */
  lemma {:induction false} TotalKeptExactlyWithoutAdds<T(!new), N(!new), O(!new)>(
    nm: Naming<T, N, O>, w: World<T, N, O>, acts: seq<Action<T, N, O>>, w': World<T, N, O>, t: T, d: Dir, total: nat)
    requires Shape(nm, w) && Leads(nm, w, acts, w') && NeverEmptied(nm, w, acts, w', t, d)
    ensures TotalOver(nm, w, acts, w', t, d, total) >= total
    ensures TotalOver(nm, w, acts, w', t, d, total) == total <==> NeverAdded(nm, w, acts, w', t, d)
    decreases |acts|
  {
    hide Shape, Next, Enabled;
    if acts != [] {
      NextKeepsShape(nm, w, acts[0]);
      TotalKeptExactlyWithoutAdds(
        nm, Next(nm, w, acts[0]), acts[1..], w', t, d, TotalAfter(w, acts[0], t, d, total));
    }
  }

  /** The thread takes no step in this run. */
  predicate Rests<T, N, O>(acts: seq<Action<T, N, O>>, i: nat) {
    forall k :: 0 <= k < |acts| && acts[k].Act? ==> acts[k].i != i
  }

  lemma {:induction false} RestingStays<T(!new), N(!new), O(!new)>(
    nm: Naming<T, N, O>, w: World<T, N, O>, acts: seq<Action<T, N, O>>, w': World<T, N, O>, i: nat)
    requires Shape(nm, w) && Leads(nm, w, acts, w') && i < |w.threads| && Rests(acts, i)
    ensures i < |w'.threads| && w'.threads[i] == w.threads[i]
    decreases |acts|
  {
    hide Shape, ThreadStep, Fresh, Attributed;
    if acts != [] {
      NextKeepsShape(nm, w, acts[0]);
      RestingStays(nm, Next(nm, w, acts[0]), acts[1..], w', i);
    }
  }

  /** A reporter's two swaps of a counter, with any run of other threads between them: the pair taken is the pair the
      counter held at the first swap exactly when the swaps and adds in between bring its download total back to what
      it was; if no other reporter swaps it, exactly when nothing was added to it. */
  lemma TakenPairWasHeld<T(!new), N(!new), O(!new)>(
    nm: Naming<T, N, O>, w: World<T, N, O>, w1: World<T, N, O>, acts: seq<Action<T, N, O>>, w2: World<T, N, O>,
    i: nat, first: Choice<T>, second: Choice<T>, t: T)
    requires Shape(nm, w) && Conserved(nm, w) && t in w.store.counters
    requires i < |w.threads| && Emptying(w.threads[i], t, Up) && w1 == Next(nm, w, Act(i, first)) && Shape(nm, w1)
    requires Leads(nm, w1, acts, w2) && Bounded(w2.store) && Rests(acts, i)
    ensures Shape(nm, w2) && i < |w2.threads|
    ensures var r, held := Next(nm, w2, Act(i, second)).threads[i], w.store.counters[t].held;
            && r.Reporter? && r.phase.Decide? && |r.cur| == 1 && r.cur[0].tag == t
            && (r.cur[0].amount == held <==> TotalOver(nm, w1, acts, w2, t, Down, held.down) == held.down)
            && (NeverEmptied(nm, w1, acts, w2, t, Down) ==>
                  (r.cur[0].amount == held <==> NeverAdded(nm, w1, acts, w2, t, Down)))
  {
    hide TotalOver, NeverEmptied, NeverAdded, Leads;
    FirstSwap(nm, w, i, first, t);
    LeadsKeepsShape(nm, w1, acts, w2);
    NextKeepsShape(nm, w, Act(i, first));
    BoundedEarlier(w1.store, w2.store);
    BoundedEarlier(w.store, w1.store);
    NextConserves(nm, w, Act(i, first));
    RestingStays(nm, w1, acts, w2, i);
    TotalFollowsSteps(nm, w1, acts, w2, t, Down);
    if NeverEmptied(nm, w1, acts, w2, t, Down) {
      TotalKeptExactlyWithoutAdds(nm, w1, acts, w2, t, Down, w.store.counters[t].held.down);
    }
    SecondSwap(nm, w2, i, second, t);
  }

  lemma FirstSwap<T(!new), N(!new), O(!new)>(nm: Naming<T, N, O>, w: World<T, N, O>, i: nat, ch: Choice<T>, t: T)
    requires Shape(nm, w) && i < |w.threads| && Emptying(w.threads[i], t, Up) && t in w.store.counters
    ensures var w', held := Next(nm, w, Act(i, ch)), w.store.counters[t].held;
            && t in w'.store.counters && w'.store.counters[t].held == held.(up := 0)
            && i < |w'.threads| && Emptying(w'.threads[i], t, Down)
            && w'.threads[i].cur == [Taken(t, Amount(held.up, 0))]
  {
    assert Fits(nm, w.store, w.threads[i]);
  }

  lemma SecondSwap<T(!new), N(!new), O(!new)>(nm: Naming<T, N, O>, w: World<T, N, O>, i: nat, ch: Choice<T>, t: T)
    requires Shape(nm, w) && i < |w.threads| && Emptying(w.threads[i], t, Down) && t in w.store.counters
    ensures var r, held := w.threads[i], w.store.counters[t].held;
            var r' := Next(nm, w, Act(i, ch)).threads[i];
            r'.Reporter? && r'.phase.Decide? && r'.cur == [Taken(t, r.cur[0].amount.(down := held.down))]
  {
    assert Fits(nm, w.store, w.threads[i]);
  }
}
