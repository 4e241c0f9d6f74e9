/** The accounting runs under the tags the controllers use: node tag, email and uid. */
module TrafficReport {
  import opened Common
  import opened Decimal
  import opened UserTag
  import opened Accounting
  import opened AccountingRuns
  import opened AccountingReports

  type TrafficWorld = World<string, string, Owner>
  type Run = seq<Action<string, string, Owner>>

  /** Tags are built and read as the controllers of these nodes do. */
  function TagNaming(nodes: string -> bool): Naming<string, string, Owner> {
    Naming((n: string, t: string) => ParseTag(n, t), (n: string, o: Owner) => BuildTag(n, o), nodes)
  }

  /** No node's tag is nested in another's: by `NodesKeepApart`, no node can claim another's counters. */
  ghost predicate Apart(nodes: string -> bool) {
    forall a: string, b: string :: nodes(a) && nodes(b) && Nested(a, b) ==> a == b
  }

  /** Node tags without a bar are apart. */
  lemma BarFreeNodesApart(nodes: string -> bool)
    requires forall n: string :: nodes(n) ==> '|' !in n
    ensures Apart(nodes)
  {
    forall a: string, b: string | nodes(a) && nodes(b) && Nested(a, b) ensures a == b {
      BarFreeApart(a, b);
    }
  }

  lemma Attribution(nodes: string -> bool, node: string, other: string, owner: Owner)
    requires Apart(nodes) && nodes(node) && nodes(other) && I32_MIN <= owner.uid <= I32_MAX
    ensures ParseTag(node, BuildTag(other, owner)) == if node == other then Some(owner) else None
  {
    if node == other {
      OwnTagParses(node, owner);
    } else {
      NodesKeepApart(node, other);
    }
  }

  /** The tag of some user of one of the nodes. */
  ghost predicate IsUserTag(nodes: string -> bool, tag: string) {
    exists node: string, owner: Owner :: IsTagOf(nodes, tag, node, owner)
  }

  predicate IsTagOf(nodes: string -> bool, tag: string, node: string, owner: Owner) {
    I32_MIN <= owner.uid <= I32_MAX && nodes(node) && tag == BuildTag(node, owner)
  }

  /** Whatever node reads a user tag reads back an identity that spells the same tag. */
  lemma UserTagAttributed(nodes: string -> bool, tag: string)
    requires Apart(nodes) && IsUserTag(nodes, tag)
    ensures Attributed(TagNaming(nodes), tag)
  {
    var node: string, owner: Owner :| IsTagOf(nodes, tag, node, owner);
    var nm := TagNaming(nodes);
    forall n: string, o: Owner | nm.nodes(n) && nm.parse(n, tag) == Some(o) ensures nm.tagOf(n, o) == tag {
      Attribution(nodes, n, node, owner);
    }
  }

  /** What the controllers can do next: a counter is registered for a user of one of the nodes, and for no one else. */
  ghost predicate Possible(nodes: string -> bool, w: TrafficWorld, a: Action<string, string, Owner>) {
    match a
    case Act(i, _) => i < |w.threads|
    case Spawn(th) => Fresh(TagNaming(nodes), w.store, th)
    case Register(tag) => IsUserTag(nodes, tag)
  }

  /** All of it is allowed by the accounting machine. */
  lemma PossibleIsEnabled(nodes: string -> bool, w: TrafficWorld, a: Action<string, string, Owner>)
    requires Apart(nodes) && Possible(nodes, w, a)
    ensures Enabled(TagNaming(nodes), w, a)
  {
    if a.Register? {
      UserTagAttributed(nodes, a.tag);
    }
  }

  /** `w'` is reached from `w` by these actions. */
  ghost predicate Executes(nodes: string -> bool, w: TrafficWorld, run: Run, w': TrafficWorld)
    requires Apart(nodes) && Shape(TagNaming(nodes), w)
    decreases |run|
  {
    if run == [] then w' == w
    else
      && Possible(nodes, w, run[0])
      && (PossibleIsEnabled(nodes, w, run[0]); NextKeepsShape(TagNaming(nodes), w, run[0]);
          Executes(nodes, Next(TagNaming(nodes), w, run[0]), run[1..], w'))
  }

  lemma {:induction false} ExecutesLeads(nodes: string -> bool, w: TrafficWorld, run: Run, w': TrafficWorld)
    requires Apart(nodes) && Shape(TagNaming(nodes), w) && Executes(nodes, w, run, w')
    ensures Leads(TagNaming(nodes), w, run, w')
    decreases |run|
  {
    hide Shape, Enabled, Possible, Next, Apart;
    if run != [] {
      PossibleIsEnabled(nodes, w, run[0]);
      NextKeepsShape(TagNaming(nodes), w, run[0]);
      ExecutesLeads(nodes, Next(TagNaming(nodes), w, run[0]), run[1..], w');
    }
  }

  /** Only user tags are ever registered. */
  lemma {:induction false} RegisteredAreUserTags(
    nodes: string -> bool, w: TrafficWorld, run: Run, w': TrafficWorld, tag: string)
    requires Apart(nodes) && Shape(TagNaming(nodes), w) && Executes(nodes, w, run, w')
    requires tag in w'.store.counters && tag !in w.store.counters
    ensures IsUserTag(nodes, tag)
    decreases |run|
  {
    hide Shape, Enabled, IsUserTag, ThreadStep, Apart;
    if run != [] {
      PossibleIsEnabled(nodes, w, run[0]);
      NextKeepsShape(TagNaming(nodes), w, run[0]);
      var w1 := Next(TagNaming(nodes), w, run[0]);
      if tag in w1.store.counters {
        NewKeyIsRegistered(TagNaming(nodes), w, run[0], tag);
      } else {
        RegisteredAreUserTags(nodes, w1, run[1..], w', tag);
      }
    }
  }

  lemma NewKeyIsRegistered(
    nm: Naming<string, string, Owner>, w: TrafficWorld, a: Action<string, string, Owner>, tag: string)
    requires Shape(nm, w) && Enabled(nm, w, a)
    requires tag !in w.store.counters && tag in Next(nm, w, a).store.counters
    ensures a == Register(tag)
  {
    hide ThreadStep, Fits, AllAttributed, LinesKnown;
    if a.Act? {
      assert Fits(nm, w.store, w.threads[a.i]);
      KeysKept(nm, w.store, w.threads[a.i], a.choice);
      assert false;
    }
  }

  /** Bytes reported for this user of this node. */
  function ReportedFor(lines: seq<Line<string, Owner>>, node: string, owner: Owner, d: Dir): nat {
    if lines == [] then 0
    else
      (if lines[0].node == node && lines[0].owner == owner then At(lines[0].amount, d) else 0)
      + ReportedFor(lines[1..], node, owner, d)
  }

  lemma {:induction false} ReportedByIdentity(
    nodes: string -> bool, counters: map<string, Cell>, lines: seq<Line<string, Owner>>,
    node: string, owner: Owner, d: Dir)
    requires Apart(nodes) && LinesKnown(TagNaming(nodes), counters, lines)
    requires nodes(node) && I32_MIN <= owner.uid <= I32_MAX
    ensures Reported(TagNaming(nodes), lines, BuildTag(node, owner), d) == ReportedFor(lines, node, owner, d)
  {
    hide Apart, ParseTag, BuildTag;
    if lines != [] {
      ReportedByIdentity(nodes, counters, lines[1..], node, owner, d);
      assert LineKnown(TagNaming(nodes), counters, lines[0]);
      if BuildTag(lines[0].node, lines[0].owner) == BuildTag(node, owner) {
        Attribution(nodes, lines[0].node, node, owner);
      }
    }
  }

  /** In every run whose totals stay below the limit, the bytes ever added for a user of a node are held, in a
      reporter's hand, reported under exactly that node, uid and email, or deliberately discarded. */
  lemma TrafficConserved(nodes: string -> bool, run: Run, w: TrafficWorld, node: string, owner: Owner, d: Dir)
    requires Apart(nodes) && Executes(nodes, Start(), run, w) && Bounded(w.store)
    requires nodes(node) && I32_MIN <= owner.uid <= I32_MAX && BuildTag(node, owner) in w.store.counters
    ensures var tag := BuildTag(node, owner);
            var c := w.store.counters[tag];
            At(c.added, d)
            == At(c.held, d) + AllHands(w.threads, tag, d)
               + ReportedFor(w.store.reports, node, owner, d) + At(c.discarded, d)
  {
    var nm := TagNaming(nodes);
    ExecutesLeads(nodes, Start(), run, w);
    LeadsKeepsShape(nm, Start(), run, w);
    RunConserves(nm, Start(), run, w);
    assert ConservedAt(nm, w, BuildTag(node, owner), d);
    ReportedByIdentity(nodes, w.store.counters, w.store.reports, node, owner, d);
  }

  /** If moreover no controller has its upload disabled, nothing is discarded. */
  lemma TrafficReported(nodes: string -> bool, run: Run, w: TrafficWorld, node: string, owner: Owner, d: Dir)
    requires Apart(nodes) && Executes(nodes, Start(), run, w) && Bounded(w.store) && StartsNoDisabled(run)
    requires nodes(node) && I32_MIN <= owner.uid <= I32_MAX && BuildTag(node, owner) in w.store.counters
    ensures var tag := BuildTag(node, owner);
            var c := w.store.counters[tag];
            At(c.added, d)
            == At(c.held, d) + AllHands(w.threads, tag, d) + ReportedFor(w.store.reports, node, owner, d)
  {
    TrafficConserved(nodes, run, w, node, owner, d);
    ExecutesLeads(nodes, Start(), run, w);
    RunDiscardsNothing(TagNaming(nodes), Start(), run, w);
  }

  /** Every reported line names a user whose counter was registered, and its node is the user's own. */
  lemma ReportsNameRegisteredUsers(nodes: string -> bool, run: Run, w: TrafficWorld, i: nat)
    requires Apart(nodes) && Executes(nodes, Start(), run, w) && i < |w.store.reports|
    ensures var line := w.store.reports[i];
            && nodes(line.node) && BuildTag(line.node, line.owner) in w.store.counters
            && I32_MIN <= line.owner.uid <= I32_MAX
  {
    ExecutesLeads(nodes, Start(), run, w);
    LeadsKeepsShape(TagNaming(nodes), Start(), run, w);
    var line := w.store.reports[i];
    assert LineKnown(TagNaming(nodes), w.store.counters, line);
    var tag := BuildTag(line.node, line.owner);
    RegisteredAreUserTags(nodes, Start(), run, w, tag);
    var node: string, owner: Owner :| IsTagOf(nodes, tag, node, owner);
    Attribution(nodes, line.node, node, owner);
  }
}
