/** The VMess replay filter: a set and an expiry queue, against the history of what was accepted. */
module Replay {
  import opened Common

  const WINDOW: nat := 120
  const CAPACITY: nat := 65_536
  const U64_MAX: nat := 0xFFFF_FFFF_FFFF_FFFF

  type AuthId = Bytes

  datatype Entry = Entry(authid: AuthId, expiresAt: nat)

  datatype Filter = Filter(seen: set<AuthId>, order: seq<Entry>)

  const Empty := Filter({}, [])

  function Expiry(now: nat): nat { Min(now + WINDOW, U64_MAX) }

  function Ids(order: seq<Entry>): set<AuthId> { set e | e in order :: e.authid }

  function Pruned(order: seq<Entry>, now: nat): seq<Entry> {
    if order == [] || order[0].expiresAt > now then order else Pruned(order[1..], now)
  }

  /** One authentication attempt: forget what has expired, then refuse repeats and overflow. */
  function Step(f: Filter, id: AuthId, now: nat): (Filter, bool) {
    var order := Pruned(f.order, now);
    var seen := Ids(order);
    if id in seen || |seen| >= CAPACITY then (Filter(seen, order), false)
    else (Filter(seen + {id}, order + [Entry(id, Expiry(now))]), true)
  }

  /** The set holds exactly the queued ids, and the queue holds none twice. */
  ghost predicate Valid(f: Filter) {
    && f.seen == Ids(f.order)
    && DistinctIds(f.order)
  }

  ghost predicate DistinctIds(order: seq<Entry>) {
    forall i, j :: 0 <= i < j < |order| ==> order[i].authid != order[j].authid
  }

  lemma {:induction false} PrunedIsSuffix(order: seq<Entry>, now: nat)
    ensures exists k: nat :: k <= |order| && Pruned(order, now) == order[k..]
  {
    if order == [] || order[0].expiresAt > now {
      assert order == order[0..];
    } else {
      PrunedIsSuffix(order[1..], now);
      var k: nat :| k <= |order[1..]| && Pruned(order[1..], now) == order[1..][k..];
      assert order[1..][k..] == order[k + 1..];
    }
  }

  lemma {:induction false} DistinctCardinality(order: seq<Entry>)
    requires DistinctIds(order)
    ensures |Ids(order)| == |order|
  {
    if order == [] {
      assert Ids(order) == {};
    } else {
      DistinctCardinality(order[1..]);
      assert order == [order[0]] + order[1..];
      assert Ids(order) == {order[0].authid} + Ids(order[1..]);
    }
  }

  lemma StepKeepsValid(f: Filter, id: AuthId, now: nat)
    requires Valid(f)
    ensures Valid(Step(f, id, now).0)
  {
    PrunedIsSuffix(f.order, now);
    var order := Pruned(f.order, now);
    assert DistinctIds(order);
    if Step(f, id, now).1 {
      var order' := order + [Entry(id, Expiry(now))];
      assert forall e :: e in order' <==> e in order || e == Entry(id, Expiry(now));
      assert Ids(order') == Ids(order) + {id};
    }
  }

  // ---- against the history ----

  /** An acceptance on record. */
  datatype Accepted = Accepted(authid: AuthId, at: nat)

  /** Accepted less than 120 seconds ago. */
  predicate Recent(a: Accepted, now: nat) { now < a.at + 120 }

  /** Away from the end of the clock's range, an entry expires once it is no longer recent. */
  lemma RecentMeansLessThanWindow(a: Accepted, now: nat)
    requires now < U64_MAX
    ensures Recent(a, now) <==> Expiry(a.at) > now
  {
  }

  function CountRecent(history: seq<Accepted>, now: nat): nat {
    if history == [] then 0 else (if Recent(history[0], now) then 1 else 0) + CountRecent(history[1..], now)
  }

  predicate AcceptedRecently(history: seq<Accepted>, id: AuthId, now: nat) {
    exists i :: 0 <= i < |history| && Recent(history[i], now) && history[i].authid == id
  }

  /** The rule: not accepted recently, and fewer than the capacity accepted recently. */
  predicate Fresh(history: seq<Accepted>, id: AuthId, now: nat) {
    !AcceptedRecently(history, id, now) && CountRecent(history, now) < 65_536
  }

  ghost predicate InOrder(history: seq<Accepted>) {
    forall i, j :: 0 <= i <= j < |history| ==> history[i].at <= history[j].at
  }

  function EntriesOf(history: seq<Accepted>): seq<Entry> {
    seq(|history|, i requires 0 <= i < |history| => Entry(history[i].authid, Expiry(history[i].at)))
  }

  /** The filter remembers the recent part of the history and nothing else. */
  ghost predicate Remembers(f: Filter, history: seq<Accepted>, now: nat) {
    && Valid(f) && f.order == Pruned(EntriesOf(history), now)
    && InOrder(history) && forall i :: 0 <= i < |history| ==> history[i].at <= now
  }

  lemma {:induction false} PrunedAgain(order: seq<Entry>, t: nat, now: nat)
    requires t <= now
    ensures Pruned(Pruned(order, t), now) == Pruned(order, now)
  {
    if order != [] && order[0].expiresAt <= t {
      PrunedAgain(order[1..], t, now);
    }
  }

  /** Pruning keeps exactly the recent acceptances. */
  lemma {:induction false} PrunedIsRecent(history: seq<Accepted>, id: AuthId, now: nat)
    requires InOrder(history) && now < U64_MAX
    ensures |Pruned(EntriesOf(history), now)| == CountRecent(history, now)
    ensures id in Ids(Pruned(EntriesOf(history), now)) <==> AcceptedRecently(history, id, now)
  {
    if history != [] {
      if Recent(history[0], now) {
        forall i | 0 <= i < |history| ensures Recent(history[i], now) {
          assert history[0].at <= history[i].at;
        }
        AllRecent(history, now);
        IdsOfEntries(history, id);
      } else {
        PrunedIsRecent(history[1..], id, now);
        assert EntriesOf(history)[1..] == EntriesOf(history[1..]);
        ShiftRecent(history, id, now);
      }
    }
  }

  lemma IdsOfEntries(history: seq<Accepted>, id: AuthId)
    ensures id in Ids(EntriesOf(history)) <==> exists i :: 0 <= i < |history| && history[i].authid == id
  {
    var order := EntriesOf(history);
    if id in Ids(order) {
      var e :| e in order && e.authid == id;
      var i :| 0 <= i < |order| && order[i] == e;
      assert history[i].authid == id;
    }
    if i :| 0 <= i < |history| && history[i].authid == id {
      assert order[i] in order;
    }
  }

  lemma ShiftRecent(history: seq<Accepted>, id: AuthId, now: nat)
    requires history != [] && !Recent(history[0], now)
    ensures AcceptedRecently(history, id, now) <==> AcceptedRecently(history[1..], id, now)
  {
    if i :| 0 <= i < |history| && Recent(history[i], now) && history[i].authid == id {
      assert history[1..][i - 1] == history[i];
    }
    if i :| 0 <= i < |history[1..]| && Recent(history[1..][i], now) && history[1..][i].authid == id {
      assert history[i + 1] == history[1..][i];
    }
  }

  /** The queue is always sorted by expiry. */
  lemma QueueSorted(f: Filter, history: seq<Accepted>, now: nat)
    requires Remembers(f, history, now)
    ensures forall i, j :: 0 <= i <= j < |f.order| ==> f.order[i].expiresAt <= f.order[j].expiresAt
  {
    PrunedIsSuffix(EntriesOf(history), now);
  }

  lemma {:induction false} AllRecent(history: seq<Accepted>, now: nat)
    requires forall i :: 0 <= i < |history| ==> Recent(history[i], now)
    ensures CountRecent(history, now) == |history|
  {
    if history != [] {
      AllRecent(history[1..], now);
    }
  }

  /** One step decides by the rule on the whole history, and keeps remembering. */
  lemma StepFollowsHistory(f: Filter, history: seq<Accepted>, t: nat, id: AuthId, now: nat)
    requires Remembers(f, history, t) && t <= now < U64_MAX
    ensures Step(f, id, now).1 == Fresh(history, id, now)
    ensures var next := if Fresh(history, id, now) then history + [Accepted(id, now)] else history;
            Remembers(Step(f, id, now).0, next, now)
  {
    hide Pruned, EntriesOf, Ids, Valid, AcceptedRecently, CountRecent, Expiry;
    var order := Pruned(f.order, now);
    assert order == Pruned(EntriesOf(history), now) by { PrunedAgain(EntriesOf(history), t, now); }
    PrunedIsRecent(history, id, now);
    PrunedCardinality(f, now);
    StepKeepsValid(f, id, now);
    if Fresh(history, id, now) {
      EntriesSnoc(history, id, now);
      PrunedSnoc(EntriesOf(history), Entry(id, Expiry(now)), now);
    } else {
      PrunedAgain(EntriesOf(history), now, now);
    }
  }

  lemma PrunedCardinality(f: Filter, now: nat)
    requires Valid(f)
    ensures |Ids(Pruned(f.order, now))| == |Pruned(f.order, now)|
  {
    PrunedIsSuffix(f.order, now);
    DistinctCardinality(Pruned(f.order, now));
  }

  lemma EntriesSnoc(history: seq<Accepted>, id: AuthId, now: nat)
    ensures EntriesOf(history + [Accepted(id, now)]) == EntriesOf(history) + [Entry(id, Expiry(now))]
    ensures now < U64_MAX ==> Expiry(now) > now
  {
  }

  lemma {:induction false} PrunedSnoc(order: seq<Entry>, e: Entry, now: nat)
    requires e.expiresAt > now
    ensures Pruned(order + [e], now) == Pruned(order, now) + [e]
  {
    if order == [] {
      assert order + [e] == [e];
    } else if order[0].expiresAt <= now {
      PrunedSnoc(order[1..], e, now);
      assert (order + [e])[1..] == order[1..] + [e];
    }
  }

  /** A run of attempts: each an id and the time it is made. */
  datatype Attempt = Attempt(authid: AuthId, now: nat)

  function Decisions(f: Filter, attempts: seq<Attempt>): seq<bool>
    decreases |attempts|
  {
    if attempts == [] then []
    else
      var (f', ok) := Step(f, attempts[0].authid, attempts[0].now);
      [ok] + Decisions(f', attempts[1..])
  }

  /** The same run decided by the rule alone, with the full history at hand. */
  function RuleDecisions(history: seq<Accepted>, attempts: seq<Attempt>): seq<bool>
    decreases |attempts|
  {
    if attempts == [] then []
    else
      var Attempt(id, now) := attempts[0];
      var ok := Fresh(history, id, now);
      [ok] + RuleDecisions(if ok then history + [Accepted(id, now)] else history, attempts[1..])
  }

  /** Times never go back, starting from `t`. */
  predicate ClockForward(t: nat, attempts: seq<Attempt>)
    decreases |attempts|
  {
    attempts == [] ||
    (t <= attempts[0].now < U64_MAX && ClockForward(attempts[0].now, attempts[1..]))
  }

  lemma {:induction false} DecisionsFollowHistory(f: Filter, history: seq<Accepted>, t: nat, attempts: seq<Attempt>)
    requires Remembers(f, history, t) && ClockForward(t, attempts)
    ensures Decisions(f, attempts) == RuleDecisions(history, attempts)
    decreases |attempts|
  {
    if attempts != [] {
      hide Step, Fresh, Remembers;
      var Attempt(id, now) := attempts[0];
      StepFollowsHistory(f, history, t, id, now);
      var history' := if Fresh(history, id, now) then history + [Accepted(id, now)] else history;
      DecisionsFollowHistory(Step(f, id, now).0, history', now, attempts[1..]);
    }
  }

  /** Over every run with a clock that does not go back, exactly the fresh attempts are accepted. */
  lemma AcceptsExactlyFresh(attempts: seq<Attempt>)
    requires ClockForward(0, attempts)
    ensures Decisions(Empty, attempts) == RuleDecisions([], attempts)
  {
    assert EntriesOf([]) == [];
    assert Ids([]) == {};
    DecisionsFollowHistory(Empty, [], 0, attempts);
  }

  // ---- the stateful filter ----

  class ReplayFilter {
    var seen: set<AuthId>
    var order: seq<Entry>

    constructor ()
      ensures View() == Empty && Valid(View())
    {
      seen, order := {}, [];
      new;
      assert Ids([]) == {};
    }

    ghost function View(): Filter
      reads this
    {
      Filter(seen, order)
    }

    method Prune(now: nat)
      requires Valid(View())
      modifies this
      ensures Valid(View()) && order == Pruned(old(order), now)
    {
      while order != []
        invariant Valid(View()) && Pruned(order, now) == Pruned(old(order), now)
        decreases |order|
      {
        var entry := order[0];
        if entry.expiresAt > now {
          break;
        }
        assert order == [entry] + order[1..];
        assert Ids(order[1..]) == Ids(order) - {entry.authid};
        order := order[1..];
        seen := seen - {entry.authid};
      }
    }

    /** Accepts or refuses an authid, and records an acceptance. */
    method CheckInsert(authid: AuthId, now: nat) returns (ok: bool)
      requires Valid(View())
      modifies this
      ensures Valid(View()) && (View(), ok) == Step(old(View()), authid, now)
    {
      StepKeepsValid(View(), authid, now);
      Prune(now);
      if authid in seen || |seen| >= CAPACITY {
        return false;
      }
      var expiresAt := if now + WINDOW <= U64_MAX then now + WINDOW else U64_MAX;
      seen := seen + {authid};
      order := order + [Entry(authid, expiresAt)];
      return true;
    }
  }
}
