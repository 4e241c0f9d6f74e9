/** The hot-swap protocol: one publisher, many consumers, and a watch channel between them. */
module SwapProtocol {
  import opened Common

  datatype Policy = Abort | Drain

  /** The channel's value: mid-swap, or the service of some generation. */
  datatype Slot = Updating | Live(gen: nat)

  /** How far an update in progress has come. */
  datatype Stage = Idle | Announced | Retired | Rolled

  /** A consumer: the channel version it last saw (0 for none), the service it caches, and every
      generation it has held, in order. */
  datatype Consumer = Consumer(seen: nat, ready: Option<nat>, held: seq<nat>)

  datatype World = World(
    policy: Policy, slot: Slot, version: nat, newest: nat,
    token: nat, cancelled: set<nat>, stage: Stage,
    consumers: map<nat, Consumer>, nextId: nat, senderAlive: bool)

  /** A fresh handle serving generation 0, with one consumer that has not polled yet. */
  function Start(policy: Policy): World {
    World(policy, Live(0), 1, 0, 0, {}, Idle, map[0 := Consumer(0, None, [])], 1, true)
  }

  /** Atomic steps, of the publisher and of any consumer. */
  datatype Step =
    | Announce | Cancel | Roll | Publish | DropSender
    | PollOnce(c: nat) | Clone(c: nat) | Drop(c: nat)

  /** What a consumer caches after taking the current value off the channel. */
  function Take(con: Consumer, w: World): Consumer {
    match w.slot
    case Live(g) => Consumer(w.version, Some(g), con.held + [g])
    case Updating => Consumer(w.version, None, con.held)
  }

  /** One step; a step that is not possible now changes nothing. Publishing without consumers fails. */
  function Next(w: World, s: Step): World {
    match s
    case Announce =>
      if w.stage == Idle && w.senderAlive && w.consumers != map[]
      then w.(slot := Updating, version := w.version + 1, stage := Announced) else w
    case Cancel =>
      if w.stage == Announced
      then w.(cancelled := w.cancelled + (if w.policy == Abort then {w.token} else {}), stage := Retired) else w
    case Roll =>
      if w.stage == Retired then w.(token := w.token + 1, stage := Rolled) else w
    case Publish =>
      if w.stage != Rolled then w
      else if w.consumers == map[] then w.(stage := Idle)
      else w.(slot := Live(w.token), version := w.version + 1, newest := w.token, stage := Idle)
    case DropSender =>
      if w.stage == Idle then w.(senderAlive := false) else w
    case PollOnce(c) =>
      if c in w.consumers && w.consumers[c].seen < w.version
      then w.(consumers := w.consumers[c := Take(w.consumers[c], w)]) else w
    case Clone(c) =>
      if c in w.consumers
      then w.(consumers := w.consumers[w.nextId := Consumer(0, None, [])], nextId := w.nextId + 1) else w
    case Drop(c) => w.(consumers := w.consumers - {c})
  }

  function Run(w: World, steps: seq<Step>): World
    decreases |steps|
  {
    if steps == [] then w else Run(Next(w, steps[0]), steps[1..])
  }

  /** Nothing new on the channel for this consumer: its polling loop stops here. */
  predicate Settled(w: World, con: Consumer) { con.seen == w.version }

  function Serving(slot: Slot): Option<nat> {
    match slot case Live(g) => Some(g) case Updating => None
  }

  ghost predicate Ascending(gens: seq<nat>) {
    forall i, j :: 0 <= i <= j < |gens| ==> gens[i] <= gens[j]
  }

  ghost predicate ConsumerOk(w: World, con: Consumer) {
    && con.seen <= w.version
    && (Settled(w, con) ==> con.ready == Serving(w.slot))
    && (con.ready.Some? ==> con.held != [] && con.held[|con.held| - 1] == con.ready.value)
    && Ascending(con.held)
    && (forall i :: 0 <= i < |con.held| ==> con.held[i] <= w.newest)
  }

  function Below(n: nat): (r: set<nat>)
    ensures forall g: nat :: g in r <==> g < n
  {
    if n == 0 then {} else Below(n - 1) + {n - 1}
  }

  /** Generations whose token a finished or half-done update has cancelled. */
  function Superseded(w: World): set<nat> {
    if w.policy == Drain then {} else Below(if w.stage == Retired then w.token + 1 else w.token)
  }

  ghost predicate Inv(w: World) {
    && (w.slot.Live? ==> w.slot.gen == w.newest && w.stage == Idle)
    && w.newest <= w.token
    && (w.stage == Idle ==> (w.slot == Live(w.token) && w.newest == w.token) || w.consumers == map[])
    && (w.stage == Rolled ==> w.newest < w.token)
    && w.cancelled == Superseded(w)
    && (forall c :: c in w.consumers ==> c < w.nextId && ConsumerOk(w, w.consumers[c]))
    && w.version > 0
  }

  lemma NextKeepsInv(w: World, s: Step)
    requires Inv(w)
    ensures Inv(Next(w, s))
  {
    match s
    case Announce => PublisherKeepsInv(w, s);
    case Cancel => PublisherKeepsInv(w, s);
    case Roll => PublisherKeepsInv(w, s);
    case Publish => PublisherKeepsInv(w, s);
    case DropSender =>
    case PollOnce(c) => PollKeepsInv(w, c);
    case Clone(c) =>
    case Drop(c) =>
  }

  lemma PublisherKeepsInv(w: World, s: Step)
    requires Inv(w) && (s.Announce? || s.Cancel? || s.Roll? || s.Publish?)
    ensures Inv(Next(w, s))
  {
    var w' := Next(w, s);
    assert w'.cancelled == Superseded(w');
    forall c | c in w'.consumers
      ensures ConsumerOk(w', w'.consumers[c])
    {
      assert ConsumerOk(w, w.consumers[c]);
    }
  }

  lemma PollKeepsInv(w: World, c: nat)
    requires Inv(w)
    ensures Inv(Next(w, PollOnce(c)))
  {
    if c in w.consumers && w.consumers[c].seen < w.version {
      var con := w.consumers[c];
      assert ConsumerOk(w, con);
      assert ConsumerOk(w, Take(con, w));
      var w' := Next(w, PollOnce(c));
      forall d | d in w'.consumers
        ensures d < w'.nextId && ConsumerOk(w', w'.consumers[d])
      {
        assert ConsumerOk(w, w'.consumers[d]);
      }
    }
  }

  /** Every reachable state is safe, whatever the interleaving. */
  lemma {:induction false} RunKeepsInv(w: World, steps: seq<Step>)
    requires Inv(w)
    ensures Inv(Run(w, steps))
    decreases |steps|
  {
    if steps != [] {
      hide Inv;
      NextKeepsInv(w, steps[0]);
      RunKeepsInv(Next(w, steps[0]), steps[1..]);
    }
  }

  lemma StartIsSafe(policy: Policy)
    ensures Inv(Start(policy))
  {
    var w := Start(policy);
    assert Superseded(w) == {};
  }

  // ---- what the invariant means ----

  /** A poll that has drained the channel and holds a service holds the newest published one,
      and that service's token is not cancelled. */
  lemma DrainedPollHoldsNewest(policy: Policy, steps: seq<Step>, c: nat)
    ensures var w := Run(Start(policy), steps);
            c in w.consumers && Settled(w, w.consumers[c]) ==>
              && w.consumers[c].ready == Serving(w.slot)
              && (w.consumers[c].ready.Some? ==>
                    w.consumers[c].ready == Some(w.newest) && w.newest !in w.cancelled)
  {
    StartIsSafe(policy);
    RunKeepsInv(Start(policy), steps);
    var w := Run(Start(policy), steps);
    if c in w.consumers {
      assert ConsumerOk(w, w.consumers[c]);
    }
  }

  /** One poll outside an update is enough to hold the newest service. */
  lemma PollOutsideUpdateIsLive(policy: Policy, steps: seq<Step>, c: nat)
    ensures var w := Run(Start(policy), steps);
            var w' := Next(w, PollOnce(c));
            w.stage == Idle && c in w.consumers ==> w'.consumers[c].ready == Some(w'.token) && w'.newest == w'.token
  {
    StartIsSafe(policy);
    RunKeepsInv(Start(policy), steps);
    var w := Run(Start(policy), steps);
    if c in w.consumers {
      assert ConsumerOk(w, w.consumers[c]);
    }
  }

  /** Tokens: outside an update, Abort has cancelled exactly the superseded generations, Drain none. */
  lemma TokensFollowPolicy(policy: Policy, steps: seq<Step>)
    ensures var w := Run(Start(policy), steps);
            && w.policy == policy
            && (policy == Drain ==> w.cancelled == {})
            && (policy == Abort && w.stage == Idle ==> w.cancelled == Below(w.token))
  {
    StartIsSafe(policy);
    RunKeepsInv(Start(policy), steps);
    PolicyFixed(Start(policy), steps);
  }

  lemma {:induction false} PolicyFixed(w: World, steps: seq<Step>)
    ensures Run(w, steps).policy == w.policy
    decreases |steps|
  {
    if steps != [] {
      PolicyFixed(Next(w, steps[0]), steps[1..]);
    }
  }

  /** No consumer ever goes back: what it has held only ever grows, and always in ascending order. */
  lemma {:induction false} NeverGoesBack(w: World, steps: seq<Step>, c: nat)
    requires Inv(w) && c in w.consumers && c in Run(w, steps).consumers
    ensures w.consumers[c].held <= Run(w, steps).consumers[c].held
    ensures Ascending(Run(w, steps).consumers[c].held)
    decreases |steps|
  {
    assert Ascending(Run(w, steps).consumers[c].held) by {
      RunKeepsInv(w, steps);
      assert ConsumerOk(Run(w, steps), Run(w, steps).consumers[c]);
    }
    if steps != [] {
      var w' := Next(w, steps[0]);
      NextKeepsInv(w, steps[0]);
      HeldGrows(w, steps[0], c);
      assert c < w.nextId <= w'.nextId;
      hide Inv, Next;
      if c in w'.consumers {
        NeverGoesBack(w', steps[1..], c);
      } else {
        GoneStaysGone(w', steps[1..], c);
        assert false;
      }
    }
  }

  lemma HeldGrows(w: World, s: Step, c: nat)
    requires c in w.consumers && c < w.nextId
    ensures c in Next(w, s).consumers ==> w.consumers[c].held <= Next(w, s).consumers[c].held
    ensures w.nextId <= Next(w, s).nextId
  {
  }

  lemma {:induction false} GoneStaysGone(w: World, steps: seq<Step>, c: nat)
    requires Inv(w) && c !in w.consumers && c < w.nextId
    ensures c !in Run(w, steps).consumers
    decreases |steps|
  {
    if steps != [] {
      NextKeepsInv(w, steps[0]);
      GoneStaysGone(Next(w, steps[0]), steps[1..], c);
    }
  }

  /** A call uses whatever is cached: the last generation held, never one from the future. */
  function Call(con: Consumer): Option<nat> { con.ready }

  lemma CallServesLastHeld(policy: Policy, steps: seq<Step>, c: nat)
    ensures var w := Run(Start(policy), steps);
            c in w.consumers && Call(w.consumers[c]).Some? ==>
              var con := w.consumers[c];
              && con.held != [] && Call(con).value == con.held[|con.held| - 1] <= w.newest
              && (forall i :: 0 <= i < |con.held| ==> con.held[i] <= Call(con).value)
  {
    StartIsSafe(policy);
    RunKeepsInv(Start(policy), steps);
    var w := Run(Start(policy), steps);
    if c in w.consumers {
      assert ConsumerOk(w, w.consumers[c]);
    }
  }

  /** An update that runs through serves the next generation, under a new token. */
  lemma UpdateServesNext(w: World)
    requires w.stage == Idle && w.senderAlive && w.consumers != map[]
    ensures Next(Next(Next(Next(w, Announce), Cancel), Roll), Publish)
            == w.(slot := Live(w.token + 1), version := w.version + 2, newest := w.token + 1, token := w.token + 1,
                  cancelled := if w.policy == Abort then w.cancelled + {w.token} else w.cancelled)
  {
    assert w.cancelled + {} == w.cancelled;
  }

  /** A clone starts with nothing cached, and its first poll takes the current value. */
  lemma CloneStartsAfresh(w: World, c: nat)
    requires Inv(w) && c in w.consumers
    ensures var w', d := Next(w, Clone(c)), w.nextId;
            && d in w'.consumers && Call(w'.consumers[d]) == None
            && Call(Next(w', PollOnce(d)).consumers[d]) == Serving(w.slot)
            && forall b :: b in w.consumers ==> w'.consumers[b] == w.consumers[b]
  {
  }

  /** A dropped consumer is gone and the others are not touched; without consumers, or once the handle is dropped, an
      update is not announced, and nothing changes. */
  lemma DroppedIsGone(w: World, c: nat)
    ensures var w' := Next(w, Drop(c));
            && c !in w'.consumers && w' == w.(consumers := w'.consumers)
            && forall b :: b in w.consumers && b != c ==> b in w'.consumers && w'.consumers[b] == w.consumers[b]
    ensures w.consumers == map[] ==> Next(w, Announce) == w
    ensures w.stage == Idle ==> Next(Next(w, DropSender), Announce) == Next(w, DropSender) == w.(senderAlive := false)
  {
  }
}
