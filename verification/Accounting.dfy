/** Traffic accounting at the granularity of single atomic operations: counters, adders, and several
    controllers' reporting cycles over one shared registry. */
module Accounting {
  import opened Common

  const LIMIT: nat := 0x8000_0000_0000_0000
  const I64_MAX: nat := 0x7FFF_FFFF_FFFF_FFFF

  datatype Dir = Up | Down

  datatype Amount = Amount(up: nat, down: nat)

  function At(a: Amount, d: Dir): nat { if d.Up? then a.up else a.down }

  function Plus(a: Amount, d: Dir, n: nat): Amount {
    if d.Up? then a.(up := a.up + n) else a.(down := a.down + n)
  }

  /** A counter: its two atomics and dirty flag, and on record what was ever added to it or discarded. */
  datatype Cell = Cell(held: Amount, dirty: bool, added: Amount, discarded: Amount)

  const Zero := Amount(0, 0)

  /** Bytes taken off a counter. */
  datatype Taken<T> = Taken(tag: T, amount: Amount)

  /** A line of a report, under the identity the controller read from the tag. */
  datatype Line<N, O> = Line(node: N, owner: O, amount: Amount)

  /** How tags are read by a node, which tag belongs to a node and an owner, and which nodes report. */
  datatype Naming<!T, !N, !O> = Naming(parse: (N, T) -> Option<O>, tagOf: (N, O) -> T, nodes: N -> bool)

  datatype Store<T, N, O> = Store(counters: map<T, Cell>, active: set<T>, reports: seq<Line<N, O>>)

  datatype AddStage = Mark | Insert | Add | Added

  /** Where a controller is in its cycle. */
  datatype Phase =
    | Collect | Loop | SwapUp | SwapDown | Decide | Send
    | RestoreMark | RestoreInsert | RestoreUp | RestoreDown | Finished

  datatype Thread<T, N, O> =
    | Adder(tag: T, dir: Dir, n: nat, stage: AddStage)
    | Reporter(
        node: N, disabled: bool, phase: Phase, todo: seq<T>,
        cur: seq<Taken<T>>, taken: seq<Taken<T>>, lines: seq<Line<N, O>>, back: seq<Taken<T>>, sent: bool)

  /** Choices the environment makes: the order a set is drained in, and whether the panel accepts a report. */
  datatype Choice<T> = Choice(order: seq<T>, accepted: bool)

  // ---- single steps ----

  /** `mark_active`: claim the dirty flag; the winner goes on to insert the tag. */
  function MarkDirty(c: Cell): (Cell, bool) { (c.(dirty := true), !c.dirty) }

  function FetchAdd(c: Cell, d: Dir, n: nat): Cell {
    if d.Up? then c.(held := c.held.(up := (c.held.up + n) % U64))
    else c.(held := c.held.(down := (c.held.down + n) % U64))
  }

  function AdderStep<T(==), N, O>(s: Store<T, N, O>, th: Thread<T, N, O>): (Store<T, N, O>, Thread<T, N, O>)
    requires th.Adder? && th.tag in s.counters
  {
    var c := s.counters[th.tag];
    match th.stage
    case Mark =>
      if th.n == 0 then (s, th.(stage := Add))
      else
        var (c', won) := MarkDirty(c);
        (s.(counters := s.counters[th.tag := c']), th.(stage := if won then Insert else Add))
    case Insert => (s.(active := s.active + {th.tag}), th.(stage := Add))
    case Add =>
      var c' := FetchAdd(c, th.dir, th.n).(added := Plus(c.added, th.dir, th.n));
      (s.(counters := s.counters[th.tag := c']), th.(stage := Added))
    case Added => (s, th)
  }

  ghost predicate Drains<T(!new)>(order: seq<T>, active: set<T>) {
    && (forall t :: t in active <==> t in order)
    && Distinct(order)
  }

  function DiscardAll<T(==)>(counters: map<T, Cell>, taken: seq<Taken<T>>): map<T, Cell> {
    if taken == [] then counters
    else
      var (t, a) := (taken[0].tag, taken[0].amount);
      var rest := DiscardAll(counters, taken[1..]);
      if t !in rest then rest
      else rest[t := rest[t].(discarded := Amount(rest[t].discarded.up + a.up, rest[t].discarded.down + a.down))]
  }

  function Saturated(a: Amount): Amount { Amount(Min(a.up, I64_MAX), Min(a.down, I64_MAX)) }

  /** Taking counters one by one, and the end of the loop. */
  function LoopStep<T(==), N, O>(s: Store<T, N, O>, r: Thread<T, N, O>): (Store<T, N, O>, Thread<T, N, O>)
    requires r.Reporter?
  {
    if r.todo == [] then
      if r.lines == [] then (s, r.(phase := Finished))
      else if r.disabled then
        (s.(counters := DiscardAll(s.counters, r.taken)), r.(phase := Finished, taken := [], lines := []))
      else (s, r.(phase := Send))
    else
      var t := r.todo[0];
      if t !in s.counters then (s, r.(todo := r.todo[1..]))
      else
        (s.(counters := s.counters[t := s.counters[t].(dirty := false)]),
         r.(todo := r.todo[1..], cur := [Taken(t, Zero)], phase := SwapUp))
  }

  /** Swapping both totals to zero, and judging the tag. */
  function TakeStep<T(==), N, O>(nm: Naming<T, N, O>, s: Store<T, N, O>, r: Thread<T, N, O>)
    : (Store<T, N, O>, Thread<T, N, O>)
    requires r.Reporter? && |r.cur| == 1 && r.cur[0].tag in s.counters
  {
    var t, a := r.cur[0].tag, r.cur[0].amount;
    var c := s.counters[t];
    match r.phase
    case SwapUp =>
      (s.(counters := s.counters[t := c.(held := c.held.(up := 0))]),
       r.(cur := [Taken(t, a.(up := c.held.up))], phase := SwapDown))
    case SwapDown =>
      (s.(counters := s.counters[t := c.(held := c.held.(down := 0))]),
       r.(cur := [Taken(t, a.(down := c.held.down))], phase := Decide))
    case Decide =>
      if a == Zero then (s, r.(cur := [], phase := Loop))
      else (
        match nm.parse(r.node, t)
        case None => (s, r.(cur := [], back := r.cur, sent := false, phase := RestoreMark))
        case Some(o) =>
          (s, r.(cur := [], taken := r.taken + r.cur,
                 lines := r.lines + [Line(r.node, o, Saturated(a))], phase := Loop)))
    case _ => (s, r)
  }

  function SendStep<T, N, O>(s: Store<T, N, O>, r: Thread<T, N, O>, accepted: bool): (Store<T, N, O>, Thread<T, N, O>)
    requires r.Reporter?
  {
    if accepted then (s.(reports := s.reports + r.lines), r.(taken := [], lines := [], phase := Finished))
    else (s, r.(taken := [], lines := [], back := r.taken, sent := true, phase := RestoreMark))
  }

  /** Adding taken bytes back, one counter at a time. */
  function RestoreStep<T(==), N, O>(s: Store<T, N, O>, r: Thread<T, N, O>): (Store<T, N, O>, Thread<T, N, O>)
    requires r.Reporter? && (r.back != [] ==> r.back[0].tag in s.counters)
  {
    if r.back == [] then (s, r.(phase := if r.sent then Finished else Loop))
    else
      var t, a := r.back[0].tag, r.back[0].amount;
      var c := s.counters[t];
      match r.phase
      case RestoreMark =>
        if a == Zero then (s, r.(phase := RestoreUp))
        else
          var (c', won) := MarkDirty(c);
          (s.(counters := s.counters[t := c']), r.(phase := if won then RestoreInsert else RestoreUp))
      case RestoreInsert => (s.(active := s.active + {t}), r.(phase := RestoreUp))
      case RestoreUp =>
        (s.(counters := s.counters[t := FetchAdd(c, Up, a.up)]),
         r.(back := [Taken(t, a.(up := 0))] + r.back[1..], phase := RestoreDown))
      case RestoreDown =>
        (s.(counters := s.counters[t := FetchAdd(c, Down, a.down)]),
         r.(back := r.back[1..], phase := RestoreMark))
      case _ => (s, r)
  }

  /** The next atomic step of a thread. */
  ghost function ThreadStep<T(!new), N, O>(nm: Naming<T, N, O>, s: Store<T, N, O>, th: Thread<T, N, O>, ch: Choice<T>)
    : (Store<T, N, O>, Thread<T, N, O>)
    requires Fits(nm, s, th)
  {
    match th
    case Adder(_, _, _, _) => AdderStep(s, th)
    case Reporter(_, _, phase, _, _, _, _, _, _) =>
      match phase
      case Collect =>
        if Drains(ch.order, s.active) then (s.(active := {}), th.(todo := ch.order, phase := Loop)) else (s, th)
      case Loop => LoopStep(s, th)
      case SwapUp => TakeStep(nm, s, th)
      case SwapDown => TakeStep(nm, s, th)
      case Decide => TakeStep(nm, s, th)
      case Send => SendStep(s, th, ch.accepted)
      case RestoreMark => RestoreStep(s, th)
      case RestoreInsert => RestoreStep(s, th)
      case RestoreUp => RestoreStep(s, th)
      case RestoreDown => RestoreStep(s, th)
      case Finished => (s, th)
  }

  // ---- what a thread holds ----

  function SumOf<T(==)>(ts: seq<Taken<T>>, t: T, d: Dir): nat {
    if ts == [] then 0 else (if ts[0].tag == t then At(ts[0].amount, d) else 0) + SumOf(ts[1..], t, d)
  }

  /** Bytes of `t` that a thread has in hand. */
  function InHand<T(==), N, O>(th: Thread<T, N, O>, t: T, d: Dir): nat {
    match th
    case Adder(_, _, _, _) => 0
    case Reporter(_, _, _, _, cur, taken, _, back, _) => SumOf(cur, t, d) + SumOf(taken, t, d) + SumOf(back, t, d)
  }

  /** Bytes reported under the identity whose tag is `t`. */
  function Reported<T(==), N, O>(nm: Naming<T, N, O>, lines: seq<Line<N, O>>, t: T, d: Dir): nat {
    if lines == [] then 0
    else
      (if nm.tagOf(lines[0].node, lines[0].owner) == t then At(lines[0].amount, d) else 0)
      + Reported(nm, lines[1..], t, d)
  }

  predicate Known<T(==)>(counters: map<T, Cell>, ts: seq<Taken<T>>) {
    forall i :: 0 <= i < |ts| ==> ts[i].tag in counters
  }

  /** The lines to be reported are what was taken, under the identity each tag spells. */
  ghost predicate LinesMatch<T, N, O>(nm: Naming<T, N, O>, node: N, taken: seq<Taken<T>>, lines: seq<Line<N, O>>) {
    && |lines| == |taken|
    && forall i :: 0 <= i < |lines| ==>
         && lines[i].amount == Saturated(taken[i].amount)
         && nm.tagOf(lines[i].node, lines[i].owner) == taken[i].tag
         && lines[i].node == node && nm.parse(node, taken[i].tag) == Some(lines[i].owner)
  }

  /** A thread's private state makes sense in this store. */
  ghost predicate Fits<T, N, O>(nm: Naming<T, N, O>, s: Store<T, N, O>, th: Thread<T, N, O>) {
    match th
    case Adder(tag, _, _, _) => tag in s.counters
    case Reporter(node, disabled, phase, todo, cur, taken, lines, back, sent) =>
      && nm.nodes(node) && Known(s.counters, cur) && Known(s.counters, taken) && Known(s.counters, back)
      && LinesMatch(nm, node, taken, lines)
      && (if phase.SwapUp? || phase.SwapDown? || phase.Decide? then |cur| == 1 else cur == [])
      && (phase.SwapUp? ==> cur[0].amount == Zero)
      && (phase.SwapDown? ==> cur[0].amount.down == 0)
      && (phase.RestoreInsert? || phase.RestoreUp? || phase.RestoreDown? ==> back != [])
      && (phase.RestoreDown? ==> back[0].amount.up == 0)
      && (phase.Collect? || phase.Loop? || phase.SwapUp? || phase.SwapDown? || phase.Decide? || phase.Send? ==>
            back == [])
      && (todo != [] ==> InLoop(phase, sent))
      && (phase.Send? ==> !disabled && lines != []) && (phase.Finished? ==> taken == [] && back == [])
      && (sent && (phase.RestoreMark? || phase.RestoreInsert? || phase.RestoreUp? || phase.RestoreDown?) ==>
            taken == [])
  }

  /** Phases in which listed tags may still wait: taking them one by one, or putting a foreign one back. */
  predicate InLoop(phase: Phase, sent: bool) {
    match phase
    case Collect => false
    case Send => false
    case Finished => false
    case Loop => true
    case SwapUp => true
    case SwapDown => true
    case Decide => true
    case RestoreMark => !sent
    case RestoreInsert => !sent
    case RestoreUp => !sent
    case RestoreDown => !sent
  }

  /** Every tag in the registry is read, by whichever reporting node can read it, as the identity it was made for. */
  ghost predicate Attributed<T(!new), N(!new), O(!new)>(nm: Naming<T, N, O>, t: T) {
    forall n: N, o: O :: nm.nodes(n) && nm.parse(n, t) == Some(o) ==> nm.tagOf(n, o) == t
  }

  // ---- balance of one step ----

  /** Everything that became of the bytes of `t`, minus what was added. */
  function Balance<T(==), N, O>(nm: Naming<T, N, O>, s: Store<T, N, O>, th: Thread<T, N, O>, t: T, d: Dir): int
    requires t in s.counters
  {
    At(s.counters[t].held, d) + InHand(th, t, d) + Reported(nm, s.reports, t, d)
    + At(s.counters[t].discarded, d) - At(s.counters[t].added, d)
  }

  /** What a thread needs in order not to overflow: its own bytes and those held fit below the limit. */
  ghost predicate Roomy<T(!new), N, O>(s: Store<T, N, O>, th: Thread<T, N, O>) {
    forall t, d :: t in s.counters ==> At(s.counters[t].held, d) + InHand(th, t, d) <= At(s.counters[t].added, d)
  }

  ghost predicate Bounded<T(!new), N, O>(s: Store<T, N, O>) {
    forall t, d :: t in s.counters ==> At(s.counters[t].added, d) < LIMIT
  }

  ghost predicate AllAttributed<T(!new), N(!new), O(!new)>(nm: Naming<T, N, O>, s: Store<T, N, O>) {
    forall t :: t in s.counters ==> Attributed(nm, t)
  }

  lemma {:induction false} SumAppend<T>(a: seq<Taken<T>>, b: seq<Taken<T>>, t: T, d: Dir)
    ensures SumOf(a + b, t, d) == SumOf(a, t, d) + SumOf(b, t, d)
  {
    if a == [] {
      assert a + b == b;
    } else {
      SumAppend(a[1..], b, t, d);
      assert (a + b)[1..] == a[1..] + b;
    }
  }

  lemma SumNone<T>(t: T, d: Dir)
    ensures SumOf<T>([], t, d) == 0
  {
  }

  lemma SumOne<T>(x: Taken<T>, t: T, d: Dir)
    ensures SumOf([x], t, d) == if x.tag == t then At(x.amount, d) else 0
  {
    assert [x][1..] == [];
    assert SumOf<T>([], t, d) == 0;
  }

  lemma {:induction false} ReportedAppend<T, N, O>(
    nm: Naming<T, N, O>, a: seq<Line<N, O>>, b: seq<Line<N, O>>, t: T, d: Dir)
    ensures Reported(nm, a + b, t, d) == Reported(nm, a, t, d) + Reported(nm, b, t, d)
  {
    if a == [] {
      assert a + b == b;
    } else {
      ReportedAppend(nm, a[1..], b, t, d);
      assert (a + b)[1..] == a[1..] + b;
    }
  }

  lemma {:induction false} LinesReportTaken<T, N, O>(
    nm: Naming<T, N, O>, node: N, taken: seq<Taken<T>>, lines: seq<Line<N, O>>, t: T, d: Dir)
    requires LinesMatch(nm, node, taken, lines) && SumOf(taken, t, d) < LIMIT
    ensures Reported(nm, lines, t, d) == SumOf(taken, t, d)
  {
    if lines != [] {
      LinesReportTaken(nm, node, taken[1..], lines[1..], t, d);
    }
  }

  lemma {:induction false} DiscardsAll<T>(counters: map<T, Cell>, taken: seq<Taken<T>>, t: T, d: Dir)
    requires Known(counters, taken) && t in counters
    ensures DiscardAll(counters, taken).Keys == counters.Keys
    ensures var c, c' := counters[t], DiscardAll(counters, taken)[t];
            && c'.held == c.held && c'.added == c.added && c'.dirty == c.dirty
            && At(c'.discarded, d) == At(c.discarded, d) + SumOf(taken, t, d)
  {
    if taken != [] {
      DiscardsAll(counters, taken[1..], t, d);
    }
  }

  /** No thread's step changes the balance of any counter, and totals only grow. */
  lemma StepBalances<T(!new), N(!new), O(!new)>(
    nm: Naming<T, N, O>, s: Store<T, N, O>, th: Thread<T, N, O>, ch: Choice<T>, t: T, d: Dir)
    requires Fits(nm, s, th) && Roomy(s, th) && t in s.counters
    requires Bounded(s) && Bounded(ThreadStep(nm, s, th, ch).0)
    ensures var (s', th') := ThreadStep(nm, s, th, ch);
            && s'.counters.Keys == s.counters.Keys
            && Balance(nm, s', th', t, d) == Balance(nm, s, th, t, d)
            && At(s'.counters[t].added, d) >= At(s.counters[t].added, d)
  {
    if th.Adder? {
      AdderBalances(nm, s, th, t, d);
    } else if th.phase.Loop? {
      LoopBalances(nm, s, th, t, d);
    } else if th.phase.SwapUp? || th.phase.SwapDown? || th.phase.Decide? {
      TakeBalances(nm, s, th, t, d);
    } else if th.phase.Send? {
      assert At(s.counters[t].held, d) + InHand(th, t, d) <= At(s.counters[t].added, d);
      LinesReportTaken(nm, th.node, th.taken, th.lines, t, d);
      ReportedAppend(nm, s.reports, th.lines, t, d);
    } else if th.phase.RestoreMark? || th.phase.RestoreInsert? || th.phase.RestoreUp? || th.phase.RestoreDown? {
      RestoreBalances(nm, s, th, t, d);
    }
  }

  lemma AdderBalances<T(!new), N(!new), O(!new)>(
    nm: Naming<T, N, O>, s: Store<T, N, O>, th: Thread<T, N, O>, t: T, d: Dir)
    requires th.Adder? && Fits(nm, s, th) && Roomy(s, th) && t in s.counters && Bounded(AdderStep(s, th).0)
    ensures var (s', th') := AdderStep(s, th);
            && s'.counters.Keys == s.counters.Keys
            && Balance(nm, s', th', t, d) == Balance(nm, s, th, t, d)
            && At(s'.counters[t].added, d) >= At(s.counters[t].added, d)
  {
    if th.stage == Add {
      var s' := AdderStep(s, th).0;
      var c := s.counters[th.tag];
      assert At(c.held, th.dir) + InHand(th, th.tag, th.dir) <= At(c.added, th.dir);
      assert At(s'.counters[th.tag].added, th.dir) < LIMIT;
    }
  }

  lemma LoopBalances<T(!new), N(!new), O(!new)>(
    nm: Naming<T, N, O>, s: Store<T, N, O>, r: Thread<T, N, O>, t: T, d: Dir)
    requires r.Reporter? && r.phase.Loop? && Fits(nm, s, r) && t in s.counters
    ensures var (s', r') := LoopStep(s, r);
            && s'.counters.Keys == s.counters.Keys
            && Balance(nm, s', r', t, d) == Balance(nm, s, r, t, d)
            && At(s'.counters[t].added, d) >= At(s.counters[t].added, d)
  {
    if r.todo == [] {
      DiscardsAll(s.counters, r.taken, t, d);
    } else {
      SumOne(Taken(r.todo[0], Zero), t, d);
    }
  }

  lemma SwapBalances<T(!new), N(!new), O(!new)>(
    nm: Naming<T, N, O>, s: Store<T, N, O>, r: Thread<T, N, O>, t: T, d: Dir)
    requires r.Reporter? && (r.phase.SwapUp? || r.phase.SwapDown?) && t in s.counters
    requires |r.cur| == 1 && r.cur[0].tag in s.counters
    requires r.cur[0].amount.down == 0 && (r.phase.SwapUp? ==> r.cur[0].amount.up == 0)
    ensures var (s', r') := TakeStep(nm, s, r);
            && s'.counters.Keys == s.counters.Keys
            && Balance(nm, s', r', t, d) == Balance(nm, s, r, t, d)
            && At(s'.counters[t].added, d) >= At(s.counters[t].added, d)
  {
    hide Reported, SumOf;
    assert r.cur == [r.cur[0]];
    SumOne(r.cur[0], t, d);
    SumOne(TakeStep(nm, s, r).1.cur[0], t, d);
  }

  lemma DecideBalances<T(!new), N(!new), O(!new)>(
    nm: Naming<T, N, O>, s: Store<T, N, O>, r: Thread<T, N, O>, t: T, d: Dir)
    requires r.Reporter? && r.phase.Decide? && t in s.counters
    requires |r.cur| == 1 && r.cur[0].tag in s.counters && r.back == []
    ensures var (s', r') := TakeStep(nm, s, r); s' == s && Balance(nm, s', r', t, d) == Balance(nm, s, r, t, d)
  {
    hide Reported, SumOf;
    assert r.cur == [r.cur[0]];
    SumOne(r.cur[0], t, d);
    SumNone(t, d);
    SumAppend(r.taken, r.cur, t, d);
  }

  lemma TakeBalances<T(!new), N(!new), O(!new)>(
    nm: Naming<T, N, O>, s: Store<T, N, O>, r: Thread<T, N, O>, t: T, d: Dir)
    requires r.Reporter? && (r.phase.SwapUp? || r.phase.SwapDown? || r.phase.Decide?)
    requires Fits(nm, s, r) && t in s.counters
    ensures var (s', r') := TakeStep(nm, s, r);
            && s'.counters.Keys == s.counters.Keys
            && Balance(nm, s', r', t, d) == Balance(nm, s, r, t, d)
            && At(s'.counters[t].added, d) >= At(s.counters[t].added, d)
  {
    hide TakeStep, LinesMatch, Balance;
    if r.phase.Decide? {
      DecideBalances(nm, s, r, t, d);
    } else {
      SwapBalances(nm, s, r, t, d);
    }
  }

  /** The head of the list to restore fits back into its counter. */
  lemma RestoreRoom<T(!new), N(!new), O(!new)>(s: Store<T, N, O>, r: Thread<T, N, O>, d: Dir)
    requires r.Reporter? && r.back != [] && r.back[0].tag in s.counters && Roomy(s, r) && Bounded(s)
    ensures At(s.counters[r.back[0].tag].held, d) + At(r.back[0].amount, d) < LIMIT
  {
    var x := r.back[0];
    assert At(s.counters[x.tag].held, d) + InHand(r, x.tag, d) <= At(s.counters[x.tag].added, d);
    assert SumOf(r.back, x.tag, d) >= At(x.amount, d);
  }

  lemma RestoreBalances<T(!new), N(!new), O(!new)>(
    nm: Naming<T, N, O>, s: Store<T, N, O>, r: Thread<T, N, O>, t: T, d: Dir)
    requires r.Reporter?
    requires r.phase.RestoreMark? || r.phase.RestoreInsert? || r.phase.RestoreUp? || r.phase.RestoreDown?
    requires Fits(nm, s, r) && Roomy(s, r) && t in s.counters && Bounded(s)
    ensures var (s', r') := RestoreStep(s, r);
            && s'.counters.Keys == s.counters.Keys
            && Balance(nm, s', r', t, d) == Balance(nm, s, r, t, d)
            && At(s'.counters[t].added, d) >= At(s.counters[t].added, d)
  {
    hide Roomy, Bounded, Reported, LinesMatch;
    if r.back != [] {
      var x, rest := r.back[0], r.back[1..];
      RestoreRoom(s, r, Up);
      RestoreRoom(s, r, Down);
      if r.phase.RestoreUp? {
        var y := Taken(x.tag, x.amount.(up := 0));
        assert ([y] + rest)[1..] == rest;
      }
    }
  }

  // ---- what a step keeps, whatever the totals ----

  /** Totals ever added only grow, and no counter disappears. */
  ghost predicate Grew<T(!new)>(before: map<T, Cell>, after: map<T, Cell>) {
    forall t :: t in before ==>
      t in after && before[t].added.up <= after[t].added.up && before[t].added.down <= after[t].added.down
  }

  lemma {:induction false} DiscardGrew<T(!new)>(counters: map<T, Cell>, taken: seq<Taken<T>>)
    ensures Grew(counters, DiscardAll(counters, taken))
  {
    if taken != [] {
      DiscardGrew(counters, taken[1..]);
    }
  }

  lemma AdderGrew<T(!new), N(!new), O(!new)>(s: Store<T, N, O>, th: Thread<T, N, O>)
    requires th.Adder? && th.tag in s.counters
    ensures Grew(s.counters, AdderStep(s, th).0.counters)
  {
  }

  lemma TakeGrew<T(!new), N(!new), O(!new)>(nm: Naming<T, N, O>, s: Store<T, N, O>, r: Thread<T, N, O>)
    requires r.Reporter? && |r.cur| == 1 && r.cur[0].tag in s.counters
    ensures Grew(s.counters, TakeStep(nm, s, r).0.counters)
  {
  }

  lemma RestoreGrew<T(!new), N(!new), O(!new)>(s: Store<T, N, O>, r: Thread<T, N, O>)
    requires r.Reporter? && (r.back != [] ==> r.back[0].tag in s.counters)
    ensures Grew(s.counters, RestoreStep(s, r).0.counters)
  {
  }

  lemma ThreadGrew<T(!new), N(!new), O(!new)>(
    nm: Naming<T, N, O>, s: Store<T, N, O>, th: Thread<T, N, O>, ch: Choice<T>)
    requires Fits(nm, s, th)
    ensures Grew(s.counters, ThreadStep(nm, s, th, ch).0.counters)
  {
    hide AdderStep, TakeStep, RestoreStep, DiscardAll, LinesMatch;
    if th.Adder? {
      AdderGrew(s, th);
    } else if th.phase.SwapUp? || th.phase.SwapDown? || th.phase.Decide? {
      TakeGrew(nm, s, th);
    } else if th.phase.Loop? {
      DiscardGrew(s.counters, th.taken);
    } else {
      RestoreGrew(s, th);
    }
  }

  /** A thread that fits keeps fitting while others work. */
  lemma FitsLater<T(!new), N(!new), O(!new)>(
    nm: Naming<T, N, O>, s: Store<T, N, O>, s': Store<T, N, O>, th: Thread<T, N, O>)
    requires Fits(nm, s, th) && Grew(s.counters, s'.counters)
    ensures Fits(nm, s', th)
  {
  }

  lemma FitsTake<T(!new), N(!new), O(!new)>(nm: Naming<T, N, O>, s: Store<T, N, O>, r: Thread<T, N, O>)
    requires r.Reporter? && (r.phase.SwapUp? || r.phase.SwapDown? || r.phase.Decide?)
    requires Fits(nm, s, r) && Attributed(nm, r.cur[0].tag)
    ensures var (s', r') := TakeStep(nm, s, r); Fits(nm, s', r')
  {
  }

  lemma FitsLoop<T(!new), N(!new), O(!new)>(nm: Naming<T, N, O>, s: Store<T, N, O>, r: Thread<T, N, O>)
    requires r.Reporter? && r.phase.Loop? && Fits(nm, s, r)
    ensures var (s', r') := LoopStep(s, r); Fits(nm, s', r')
  {
  }

  lemma FitsRestore<T(!new), N(!new), O(!new)>(nm: Naming<T, N, O>, s: Store<T, N, O>, r: Thread<T, N, O>)
    requires r.Reporter?
    requires r.phase.RestoreMark? || r.phase.RestoreInsert? || r.phase.RestoreUp? || r.phase.RestoreDown?
    requires Fits(nm, s, r)
    ensures var (s', r') := RestoreStep(s, r); Fits(nm, s', r')
  {
    hide LinesMatch, FetchAdd;
  }

  /** Its own step keeps it fitting. */
  lemma FitsKept<T(!new), N(!new), O(!new)>(nm: Naming<T, N, O>, s: Store<T, N, O>, th: Thread<T, N, O>, ch: Choice<T>)
    requires Fits(nm, s, th) && AllAttributed(nm, s)
    ensures var (s', th') := ThreadStep(nm, s, th, ch); Fits(nm, s', th')
  {
    hide LoopStep, TakeStep, RestoreStep, Attributed, LinesMatch;
    if th.Reporter? && th.phase.Loop? {
      FitsLoop(nm, s, th);
    } else if th.Reporter? && (th.phase.SwapUp? || th.phase.SwapDown? || th.phase.Decide?) {
      FitsTake(nm, s, th);
    } else if
      && th.Reporter?
      && (th.phase.RestoreMark? || th.phase.RestoreInsert? || th.phase.RestoreUp? || th.phase.RestoreDown?)
    {
      FitsRestore(nm, s, th);
    } else if th.Reporter? && th.phase.Send? {
      FitsSend(nm, s, th, ch.accepted);
    }
  }

  lemma FitsSend<T(!new), N(!new), O(!new)>(nm: Naming<T, N, O>, s: Store<T, N, O>, r: Thread<T, N, O>, accepted: bool)
    requires r.Reporter? && r.phase.Send? && Fits(nm, s, r)
    ensures var (s', r') := SendStep(s, r, accepted); Fits(nm, s', r')
  {
  }
}
