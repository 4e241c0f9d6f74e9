/** Who may report and who may discard. */
module AccountingReports {
  import opened Accounting
  import opened AccountingRuns
  import opened AccountingListing

  /** The thread's next step throws away what it has taken: a disabled reporter at the end of its loop. */
  predicate Discarding<T, N, O>(th: Thread<T, N, O>) {
    th.Reporter? && th.disabled && th.phase.Loop? && th.todo == [] && th.taken != []
  }

  /** Bytes are discarded by such steps only, and exactly the bytes taken. */
  lemma DiscardedOnlyByDisabled<T(!new), N(!new), O(!new)>(
    nm: Naming<T, N, O>, s: Store<T, N, O>, th: Thread<T, N, O>, ch: Choice<T>, t: T, d: Dir)
    requires Fits(nm, s, th) && t in s.counters
    ensures var (s', th') := ThreadStep(nm, s, th, ch);
            && t in s'.counters
            && At(s'.counters[t].discarded, d)
               == At(s.counters[t].discarded, d) + if Discarding(th) then SumOf(th.taken, t, d) else 0
  {
    hide SumOf;
    KeysKept(nm, s, th, ch);
    if th.Reporter? {
      assert |th.lines| == |th.taken|;
      DiscardsAll(s.counters, th.taken, t, d);
      NothingSums(th.taken, t, d);
    }
  }

  lemma NothingSums<T>(ts: seq<Taken<T>>, t: T, d: Dir)
    ensures ts == [] ==> SumOf(ts, t, d) == 0
  {
  }

  /** Reports grow exactly by an accepted send, of a reporter that is not disabled, and by exactly its lines. */
  lemma ReportedOnlyBySend<T(!new), N(!new), O(!new)>(
    nm: Naming<T, N, O>, s: Store<T, N, O>, th: Thread<T, N, O>, ch: Choice<T>)
    requires Fits(nm, s, th)
    ensures var s' := ThreadStep(nm, s, th, ch).0;
            var sends := th.Reporter? && th.phase.Send? && ch.accepted;
            && s'.reports == s.reports + (if sends then th.lines else [])
            && (s'.reports != s.reports <==> sends) && (sends ==> !th.disabled)
  {
    hide LinesMatch, DiscardAll, FetchAdd;
  }

  /** A refused send keeps everything in hand, to be put back. */
  lemma RefusedKeeps<T(!new), N(!new), O(!new)>(
    nm: Naming<T, N, O>, s: Store<T, N, O>, th: Thread<T, N, O>, ch: Choice<T>)
    requires Fits(nm, s, th) && th.Reporter? && th.phase.Send? && !ch.accepted
    ensures var (s', th') := ThreadStep(nm, s, th, ch);
            && s' == s && th'.Reporter? && th'.back == th.taken && th'.taken == [] && th'.phase.RestoreMark?
  {
  }

  // ---- whole runs ----

  ghost predicate NoDisabled<T(!new), N(!new), O(!new)>(w: World<T, N, O>) {
    forall i :: 0 <= i < |w.threads| && w.threads[i].Reporter? ==> !w.threads[i].disabled
  }

  /** No action of the run starts a reporter with upload disabled. */
  predicate StartsNoDisabled<T, N, O>(acts: seq<Action<T, N, O>>) {
    forall k :: 0 <= k < |acts| && acts[k].Spawn? && acts[k].thread.Reporter? ==> !acts[k].thread.disabled
  }

  ghost predicate NothingDiscarded<T(!new), N, O>(w: World<T, N, O>) {
    forall t :: t in w.store.counters ==> w.store.counters[t].discarded == Zero
  }

  lemma SwitchStays<T(!new), N(!new), O(!new)>(
    nm: Naming<T, N, O>, s: Store<T, N, O>, th: Thread<T, N, O>, ch: Choice<T>)
    requires Fits(nm, s, th)
    ensures var th' := ThreadStep(nm, s, th, ch).1;
            th'.Reporter? == th.Reporter? && (th.Reporter? ==> th'.disabled == th.disabled && th'.node == th.node)
  {
    hide LinesMatch, DiscardAll, FetchAdd;
  }

  lemma NextDiscardsNothing<T(!new), N(!new), O(!new)>(nm: Naming<T, N, O>, w: World<T, N, O>, a: Action<T, N, O>)
    requires Shape(nm, w) && Enabled(nm, w, a) && NoDisabled(w) && NothingDiscarded(w) && StartsNoDisabled([a])
    ensures NoDisabled(Next(nm, w, a)) && NothingDiscarded(Next(nm, w, a))
  {
    hide ThreadStep, Fits, AllAttributed, LinesKnown, Fresh, Attributed, SumOf;
    var w' := Next(nm, w, a);
    if a.Spawn? {
      assert [a][0] == a;
    }
    if a.Act? {
      var th := w.threads[a.i];
      assert Fits(nm, w.store, th);
      SwitchStays(nm, w.store, th, a.choice);
      KeysKept(nm, w.store, th, a.choice);
      forall t | t in w'.store.counters ensures w'.store.counters[t].discarded == Zero {
        DiscardedOnlyByDisabled(nm, w.store, th, a.choice, t, Up);
        DiscardedOnlyByDisabled(nm, w.store, th, a.choice, t, Down);
      }
    }
  }

  /** Without a disabled reporter nothing is ever discarded. */
  lemma {:induction false} RunDiscardsNothing<T(!new), N(!new), O(!new)>(
    nm: Naming<T, N, O>, w: World<T, N, O>, acts: seq<Action<T, N, O>>, w': World<T, N, O>)
    requires Shape(nm, w) && NoDisabled(w) && NothingDiscarded(w) && Leads(nm, w, acts, w') && StartsNoDisabled(acts)
    ensures NothingDiscarded(w')
    decreases |acts|
  {
    hide Shape, NoDisabled, NothingDiscarded, Next, Enabled;
    if acts != [] {
      NextKeepsShape(nm, w, acts[0]);
      NextDiscardsNothing(nm, w, acts[0]);
      RunDiscardsNothing(nm, Next(nm, w, acts[0]), acts[1..], w');
    }
  }

  /** The panel accepts no report in this run. */
  predicate NeverAccepted<T, N, O>(acts: seq<Action<T, N, O>>) {
    forall k :: 0 <= k < |acts| && acts[k].Act? ==> !acts[k].choice.accepted
  }

  ghost predicate AllDisabled<T(!new), N(!new), O(!new)>(w: World<T, N, O>) {
    forall i :: 0 <= i < |w.threads| && w.threads[i].Reporter? ==> w.threads[i].disabled
  }

  predicate StartsOnlyDisabled<T, N, O>(acts: seq<Action<T, N, O>>) {
    forall k :: 0 <= k < |acts| && acts[k].Spawn? && acts[k].thread.Reporter? ==> acts[k].thread.disabled
  }

  lemma NextReportsNothing<T(!new), N(!new), O(!new)>(nm: Naming<T, N, O>, w: World<T, N, O>, a: Action<T, N, O>)
    requires Shape(nm, w) && Enabled(nm, w, a)
    requires NeverAccepted([a]) || (AllDisabled(w) && StartsOnlyDisabled([a]))
    ensures Next(nm, w, a).store.reports == w.store.reports
    ensures AllDisabled(w) && StartsOnlyDisabled([a]) ==> AllDisabled(Next(nm, w, a))
  {
    hide ThreadStep, Fits, AllAttributed, LinesKnown, Fresh, Attributed;
    assert [a][0] == a;
    if a.Act? {
      assert Fits(nm, w.store, w.threads[a.i]);
      SwitchStays(nm, w.store, w.threads[a.i], a.choice);
      ReportedOnlyBySend(nm, w.store, w.threads[a.i], a.choice);
    }
  }

  /** Without an accepted report, or with disabled reporters only, nothing is ever reported. */
  lemma {:induction false} RunReportsNothing<T(!new), N(!new), O(!new)>(
    nm: Naming<T, N, O>, w: World<T, N, O>, acts: seq<Action<T, N, O>>, w': World<T, N, O>)
    requires Shape(nm, w) && Leads(nm, w, acts, w')
    requires NeverAccepted(acts) || (AllDisabled(w) && StartsOnlyDisabled(acts))
    ensures w'.store.reports == w.store.reports
    decreases |acts|
  {
    hide Shape, AllDisabled, Next, Enabled;
    if acts != [] {
      NextKeepsShape(nm, w, acts[0]);
      NextReportsNothing(nm, w, acts[0]);
      RunReportsNothing(nm, Next(nm, w, acts[0]), acts[1..], w');
    }
  }

  lemma {:induction false} DoneHoldNothing<T(!new), N(!new), O(!new)>(
    nm: Naming<T, N, O>, s: Store<T, N, O>, ths: seq<Thread<T, N, O>>, t: T, d: Dir)
    requires forall i :: 0 <= i < |ths| ==> Fits(nm, s, ths[i]) && Done(ths[i])
    ensures AllHands(ths, t, d) == 0
  {
    hide LinesMatch;
    if ths != [] {
      assert Fits(nm, s, ths[0]) && Done(ths[0]);
      DoneHoldNothing(nm, s, ths[1..], t, d);
    }
  }

  /** Once all threads are done, nothing is in hand: bytes added are held, reported or discarded. */
  lemma DoneBalances<T(!new), N(!new), O(!new)>(
    nm: Naming<T, N, O>, acts: seq<Action<T, N, O>>, w: World<T, N, O>, t: T, d: Dir)
    requires Shape(nm, Start()) && Leads(nm, Start(), acts, w) && Bounded(w.store) && t in w.store.counters
    requires forall i :: 0 <= i < |w.threads| ==> Done(w.threads[i])
    ensures var c := w.store.counters[t];
            && At(c.added, d) == At(c.held, d) + Reported(nm, w.store.reports, t, d) + At(c.discarded, d)
            && (StartsNoDisabled(acts) ==> At(c.added, d) == At(c.held, d) + Reported(nm, w.store.reports, t, d))
  {
    hide Reported;
    RunConserves(nm, Start(), acts, w);
    LeadsKeepsShape(nm, Start(), acts, w);
    DoneHoldNothing(nm, w.store, w.threads, t, d);
    assert ConservedAt(nm, w, t, d);
    if StartsNoDisabled(acts) {
      RunDiscardsNothing(nm, Start(), acts, w);
    }
  }

  /** A counter that bytes are about to be added or put back to is dirty once its marking step is done, and the marker
      goes on to list it exactly when the flag was down. */
  lemma MarksBeforeAdding<T(!new), N(!new), O(!new)>(
    nm: Naming<T, N, O>, s: Store<T, N, O>, th: Thread<T, N, O>, ch: Choice<T>)
    requires Fits(nm, s, th)
    ensures th.Adder? && th.stage.Mark? ==>
              var (s', th') := ThreadStep(nm, s, th, ch);
              && (th.n > 0 ==> s'.counters[th.tag].dirty)
              && th' == th.(stage := if th.n > 0 && !s.counters[th.tag].dirty then Insert else Add)
    ensures th.Reporter? && th.phase.RestoreMark? && th.back != [] ==>
              var (s', th') := ThreadStep(nm, s, th, ch);
              var t, some := th.back[0].tag, th.back[0].amount != Zero;
              && (some ==> t in s'.counters && s'.counters[t].dirty)
              && th' == th.(phase := if some && !s.counters[t].dirty then RestoreInsert else RestoreUp)
  {
    hide LinesMatch;
  }

  /** What a line carries: each total, or 2^63 - 1 if it is more. */
  lemma SaturatedForm(a: Amount)
    ensures Saturated(a).up == (if a.up > 9_223_372_036_854_775_807 then 9_223_372_036_854_775_807 else a.up)
    ensures Saturated(a).down == (if a.down > 9_223_372_036_854_775_807 then 9_223_372_036_854_775_807 else a.down)
  {
  }
}
