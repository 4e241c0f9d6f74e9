/** The counter registry call by call, and one controller's reporting cycle over it. */
module Stats {
  import opened Common
  import opened Accounting

  /** A counter: totals and dirty flag. */
  datatype Tally = Tally(amount: Amount, dirty: bool)

  /** Addition as the atomics do it, wrapping. */
  function AddedTo(a: Amount, up: nat, down: nat): Amount { Amount((a.up + up) % U64, (a.down + down) % U64) }

  predicate InRange(a: Amount) { a.up < U64 && a.down < U64 }

  lemma AddedToFits(a: Amount, up: nat, down: nat)
    ensures InRange(AddedTo(a, up, down))
    ensures InRange(a) && up == 0 && down == 0 ==> AddedTo(a, up, down) == a
    ensures up < U64 && down < U64 ==> AddedTo(Zero, up, down) == Amount(up, down)
  {
  }

  /** A counter with bytes is dirty, and a dirty counter is listed, as active or to a reporter. */
  ghost predicate Sound<T(!new)>(users: map<T, Tally>, active: set<T>, drained: multiset<T>) {
    && active <= users.Keys
    && (forall t :: t in drained ==> t in users)
    && (forall t :: t in users ==> TallyOk(users[t], t in active || t in drained))
  }

  predicate TallyOk(c: Tally, listed: bool) {
    (c.dirty ==> listed) && (c.amount != Zero ==> c.dirty) && InRange(c.amount)
  }

  lemma MarkedSound<T(!new)>(users: map<T, Tally>, active: set<T>, drained: multiset<T>, t: T)
    requires Sound(users, active, drained) && t in users
    ensures Sound(users[t := users[t].(dirty := true)], active + {t}, drained)
  {
    hide InRange;
  }

  lemma AddedSound<T(!new)>(users: map<T, Tally>, active: set<T>, drained: multiset<T>, t: T, a: Amount)
    requires Sound(users, active, drained) && t in users && InRange(a) && (users[t].dirty || a == users[t].amount)
    ensures Sound(users[t := users[t].(amount := a)], active, drained)
  {
    hide InRange;
  }

  lemma TakenSound<T(!new)>(users: map<T, Tally>, active: set<T>, drained: multiset<T>, t: T)
    requires Sound(users, active, drained) && t in users
    ensures Sound(users[t := Tally(Zero, false)], active, drained - multiset{t})
  {
  }

  lemma ListedSound<T(!new)>(users: map<T, Tally>, active: set<T>, drained: multiset<T>, tags: seq<T>)
    requires Sound(users, active, drained) && Lists(tags, active)
    ensures Sound(users, {}, drained + multiset(tags))
  {
    hide InRange, Distinct;
    assert forall t :: t in multiset(tags) <==> t in tags;
  }

  lemma DirtyIsListed<T(!new)>(users: map<T, Tally>, active: set<T>, drained: multiset<T>, t: T)
    requires Sound(users, active, drained) && t in users
    ensures users[t].dirty ==> t in active || t in drained
    ensures InRange(users[t].amount)
  {
  }

  class Registry<T(==, !new)> {
    var users: map<T, Tally>
    var active: set<T>
    /** Tags listed to reporters that have not taken them yet. */
    ghost var drained: multiset<T>

    ghost predicate Valid()
      reads this
    {
      Sound(users, active, drained)
    }

    constructor ()
      ensures Valid() && users == map[] && active == {} && drained == multiset{}
    {
      users, active, drained := map[], {}, multiset{};
    }

    method Counter(t: T)
      requires Valid()
      modifies this
      ensures Valid() && active == old(active) && drained == old(drained)
      ensures users == if t in old(users) then old(users) else old(users)[t := Tally(Zero, false)]
    {
      if t !in users {
        assert InRange(Zero);
        users := users[t := Tally(Zero, false)];
      }
    }

    /** The first to mark a counter lists it. */
    method MarkActive(t: T)
      requires Valid() && t in users
      modifies this
      ensures Valid() && drained == old(drained)
      ensures users == old(users)[t := Tally(old(users)[t].amount, true)]
      ensures active == if old(users)[t].dirty then old(active) else old(active) + {t}
    {
      hide Sound;
      if !users[t].dirty {
        MarkedSound(users, active, drained, t);
        users := users[t := users[t].(dirty := true)];
        active := active + {t};
      }
    }

    method AddUp(t: T, n: nat)
      requires Valid() && t in users
      modifies this
      ensures Valid() && drained == old(drained)
      ensures users == old(users)[t := Tally(AddedTo(old(users)[t].amount, n, 0), old(users)[t].dirty || n > 0)]
      ensures n > 0 ==> t in active || t in drained
    {
      hide Sound, AddedTo;
      if n > 0 {
        MarkActive(t);
      }
      AddedToFits(users[t].amount, n, 0);
      DirtyIsListed(users, active, drained, t);
      AddedSound(users, active, drained, t, AddedTo(users[t].amount, n, 0));
      users := users[t := users[t].(amount := AddedTo(users[t].amount, n, 0))];
    }

    method AddDown(t: T, n: nat)
      requires Valid() && t in users
      modifies this
      ensures Valid() && drained == old(drained)
      ensures users == old(users)[t := Tally(AddedTo(old(users)[t].amount, 0, n), old(users)[t].dirty || n > 0)]
      ensures n > 0 ==> t in active || t in drained
    {
      hide Sound, AddedTo;
      if n > 0 {
        MarkActive(t);
      }
      AddedToFits(users[t].amount, 0, n);
      DirtyIsListed(users, active, drained, t);
      AddedSound(users, active, drained, t, AddedTo(users[t].amount, 0, n));
      users := users[t := users[t].(amount := AddedTo(users[t].amount, 0, n))];
    }

    method Restore(t: T, up: nat, down: nat)
      requires Valid() && t in users
      modifies this
      ensures Valid() && drained == old(drained)
      ensures var was := old(users)[t];
              users == old(users)[t := Tally(AddedTo(was.amount, up, down), was.dirty || up > 0 || down > 0)]
      ensures up > 0 || down > 0 ==> t in active || t in drained
    {
      hide Sound, AddedTo;
      if up > 0 || down > 0 {
        MarkActive(t);
      }
      AddedToFits(users[t].amount, up, down);
      DirtyIsListed(users, active, drained, t);
      AddedSound(users, active, drained, t, AddedTo(users[t].amount, up, down));
      users := users[t := users[t].(amount := AddedTo(users[t].amount, up, down))];
    }

    /** Empties any counter; a reporter that had it on its list has then dealt with it. */
    method Take(t: T) returns (a: Amount)
      requires Valid() && t in users
      modifies this
      ensures Valid() && drained == old(drained) - multiset{t} && active == old(active)
      ensures users == old(users)[t := Tally(Zero, false)] && a == old(users)[t].amount
    {
      hide Sound;
      TakenSound(users, active, drained, t);
      a := users[t].amount;
      users := users[t := Tally(Zero, false)];
      drained := drained - multiset{t};
    }

    /** Every tag listed since the last drain, once, and each leads to its counter. */
    method ActiveCounters() returns (tags: seq<T>)
      requires Valid()
      modifies this
      ensures Valid() && users == old(users) && active == {} && drained == old(drained) + multiset(tags)
      ensures Lists(tags, old(active))
    {
      tags := [];
      var left := active;
      while left != {}
        invariant left <= active
        invariant Lists(tags, active - left)
      {
        var t :| t in left;
        tags := tags + [t];
        left := left - {t};
      }
      ListedSound(users, active, drained, tags);
      drained := drained + multiset(tags);
      active := {};
    }
  }

  /** A sequence without repetition of exactly these elements. */
  ghost predicate Lists<T(!new)>(tags: seq<T>, s: set<T>) {
    && (forall t :: t in tags <==> t in s)
    && Distinct(tags)
  }

  /** A counter this cycle reports: it has bytes, and the controller can read its tag. */
  predicate Reportable<T(==), O>(parse: T -> Option<O>, users: map<T, Tally>, t: T) {
    t in users && users[t].amount != Zero && parse(t).Some?
  }

  /** Totals are as before, except that the listed counters are empty. */
  ghost predicate EmptiedOnly<T(!new)>(was: map<T, Tally>, now: map<T, Tally>, emptied: seq<T>) {
    now.Keys == was.Keys && forall t :: t in was ==> now[t].amount == if t in emptied then Zero else was[t].amount
  }

  /** One line for each tag, under the owner read from it and with the bytes the counter held. */
  ghost predicate LinesFor<T, O>(
    parse: T -> Option<O>, was: map<T, Tally>, tags: seq<T>, lines: seq<(O, Amount)>)
  {
    && |lines| == |tags|
    && forall i :: 0 <= i < |tags| ==>
         Reportable(parse, was, tags[i])
         && lines[i] == (parse(tags[i]).value, Saturated(was[tags[i]].amount))
  }

  /** What is true after the first `i` listed tags. */
  ghost predicate Collected<T(!new), O(!new)>(
    parse: T -> Option<O>, was: map<T, Tally>, now: map<T, Tally>, listed: seq<T>, i: nat,
    tags: seq<T>, lines: seq<(O, Amount)>)
    requires i <= |listed|
  {
    && EmptiedOnly(was, now, tags) && LinesFor(parse, was, tags, lines) && Distinct(tags)
    && (forall t :: t in tags ==> t in listed[..i])
    && (forall t :: t in listed[..i] && Reportable(parse, was, t) ==> t in tags)
  }

  lemma NotTakenYet<T(!new), O(!new)>(
    parse: T -> Option<O>, was: map<T, Tally>, now: map<T, Tally>, listed: seq<T>, i: nat,
    tags: seq<T>, lines: seq<(O, Amount)>)
    requires i < |listed| && Distinct(listed) && Collected(parse, was, now, listed, i, tags, lines) && listed[i] in was
    ensures listed[i] !in tags && listed[i] in now && now[listed[i]].amount == was[listed[i]].amount
  {
  }

  /** A counter left with its bytes, because it has none to report. */
  lemma CollectPasses<T(!new), O(!new)>(
    parse: T -> Option<O>, was: map<T, Tally>, now: map<T, Tally>, listed: seq<T>, i: nat,
    tags: seq<T>, lines: seq<(O, Amount)>,
    after: map<T, Tally>)
    requires i < |listed| && Distinct(listed) && Collected(parse, was, now, listed, i, tags, lines) && listed[i] in was
    requires !Reportable(parse, was, listed[i]) && after.Keys == now.Keys
    requires after[listed[i]].amount == was[listed[i]].amount
    requires forall t :: t in now && t != listed[i] ==> after[t] == now[t]
    ensures Collected(parse, was, after, listed, i + 1, tags, lines)
  {
    hide Reportable, LinesFor;
    NotTakenYet(parse, was, now, listed, i, tags, lines);
    assert listed[..i + 1] == listed[..i] + [listed[i]];
  }

  /** A counter emptied into the report. */
  lemma CollectTakes<T(!new), O(!new)>(
    parse: T -> Option<O>, was: map<T, Tally>, now: map<T, Tally>, listed: seq<T>, i: nat,
    tags: seq<T>, lines: seq<(O, Amount)>,
    after: map<T, Tally>)
    requires i < |listed| && Distinct(listed) && Collected(parse, was, now, listed, i, tags, lines) && listed[i] in was
    requires Reportable(parse, was, listed[i]) && after.Keys == now.Keys
    requires after[listed[i]].amount == Zero
    requires forall t :: t in now && t != listed[i] ==> after[t] == now[t]
    ensures Collected(parse, was, after, listed, i + 1, tags + [listed[i]],
                      lines + [(parse(listed[i]).value, Saturated(was[listed[i]].amount))])
  {
    hide Reportable;
    NotTakenYet(parse, was, now, listed, i, tags, lines);
    assert listed[..i + 1] == listed[..i] + [listed[i]];
  }

  lemma RestAfter<T>(others: multiset<T>, listed: seq<T>, i: nat)
    requires i < |listed|
    ensures others + multiset(listed[i..]) - multiset{listed[i]} == others + multiset(listed[i + 1..])
  {
    assert listed[i..] == [listed[i]] + listed[i + 1..];
  }

  /** Takes one counter; bytes that cannot be read as one of the node's own tags go straight back. */
  method CollectOne<T(==, !new), O(!new)>(stats: Registry<T>, parse: T -> Option<O>, t: T)
    returns (a: Amount, owner: Option<O>)
    requires stats.Valid() && t in stats.users
    modifies stats
    ensures stats.Valid() && stats.drained == old(stats.drained) - multiset{t}
    ensures stats.users.Keys == old(stats.users.Keys)
    ensures forall u :: u in stats.users && u != t ==> stats.users[u] == old(stats.users)[u]
    ensures a == old(stats.users)[t].amount
    ensures owner.Some? <==> Reportable(parse, old(stats.users), t)
    ensures owner.Some? ==> parse(t) == owner && stats.users[t].amount == Zero
    ensures owner.None? ==> stats.users[t].amount == a
  {
    a := stats.Take(t);
    if a == Zero {
      return a, None;
    }
    owner := parse(t);
    if owner.None? {
      stats.Restore(t, a.up, a.down);
    }
  }

  /** Where a collecting loop stands after the first `i` listed tags, with what others have on their lists. */
  ghost predicate Midway<T(!new), O(!new)>(
    parse: T -> Option<O>, was: map<T, Tally>, others: multiset<T>, listed: seq<T>, i: nat,
    now: map<T, Tally>, drained: multiset<T>, tags: seq<T>, amounts: seq<Amount>, lines: seq<(O, Amount)>)
  {
    && i <= |listed| && Distinct(listed) && (forall t :: t in listed ==> t in was)
    && Collected(parse, was, now, listed, i, tags, lines) && now.Keys == was.Keys
    && drained == others + multiset(listed[i..])
    && |amounts| == |tags| && (forall k :: 0 <= k < |tags| ==> tags[k] in was && amounts[k] == was[tags[k]].amount)
  }

  method CollectNext<T(==, !new), O(!new)>(
    stats: Registry<T>, parse: T -> Option<O>, ghost was: map<T, Tally>, ghost others: multiset<T>,
    listed: seq<T>, i: nat,
    tags: seq<T>, amounts: seq<Amount>, lines: seq<(O, Amount)>)
    returns (tags': seq<T>, amounts': seq<Amount>, lines': seq<(O, Amount)>)
    requires stats.Valid() && i < |listed|
    requires Midway(parse, was, others, listed, i, stats.users, stats.drained, tags, amounts, lines)
    modifies stats
    ensures stats.Valid()
    ensures Midway(parse, was, others, listed, i + 1, stats.users, stats.drained, tags', amounts', lines')
  {
    hide Sound, Collected, Saturated, Distinct;
    var t := listed[i];
    ghost var now := stats.users;
    NotTakenYet(parse, was, now, listed, i, tags, lines);
    RestAfter(others, listed, i);
    var a, owner := CollectOne(stats, parse, t);
    if owner.None? {
      CollectPasses(parse, was, now, listed, i, tags, lines, stats.users);
      return tags, amounts, lines;
    }
    CollectTakes(parse, was, now, listed, i, tags, lines, stats.users);
    return tags + [t], amounts + [a], lines + [(owner.value, Saturated(a))];
  }

  /** Takes every active counter, whatever other reporters have on their lists. */
  method Collect<T(==, !new), O(!new)>(stats: Registry<T>, parse: T -> Option<O>)
    returns (tags: seq<T>, amounts: seq<Amount>, lines: seq<(O, Amount)>)
    requires stats.Valid()
    modifies stats
    ensures stats.Valid() && stats.drained == old(stats.drained)
    ensures EmptiedOnly(old(stats.users), stats.users, tags)
    ensures LinesFor(parse, old(stats.users), tags, lines) && Distinct(tags)
    ensures forall t :: t in tags <==> t in old(stats.active) && Reportable(parse, old(stats.users), t)
    ensures |amounts| == |tags| && forall i :: 0 <= i < |tags| ==> amounts[i] == old(stats.users)[tags[i]].amount
  {
    assert stats.active <= stats.users.Keys;
    hide Sound, LinesFor, EmptiedOnly, Reportable, Distinct;
    ghost var was, others := stats.users, stats.drained;
    tags, amounts, lines := [], [], [];
    var listed := stats.ActiveCounters();
    CollectStarts(parse, was, others, listed);
    for i := 0 to |listed|
      invariant stats.Valid()
      invariant Midway(parse, was, others, listed, i, stats.users, stats.drained, tags, amounts, lines)
    {
      hide Midway;
      tags, amounts, lines := CollectNext(stats, parse, was, others, listed, i, tags, amounts, lines);
    }
    assert listed[|listed|..] == [];
    CollectEnds(parse, was, stats.users, listed, tags, lines);
  }

  lemma CollectEnds<T(!new), O(!new)>(
    parse: T -> Option<O>, was: map<T, Tally>, now: map<T, Tally>, listed: seq<T>, tags: seq<T>,
    lines: seq<(O, Amount)>)
    requires Collected(parse, was, now, listed, |listed|, tags, lines)
    ensures forall t :: t in tags <==> t in listed && Reportable(parse, was, t)
  {
    assert listed[..|listed|] == listed;
  }

  lemma CollectStarts<T(!new), O(!new)>(parse: T -> Option<O>, was: map<T, Tally>, others: multiset<T>, listed: seq<T>)
    requires Distinct(listed) && forall t :: t in listed ==> t in was
    ensures Midway(parse, was, others, listed, 0, was, others + multiset(listed), [], [], [])
  {
    assert listed[0..] == listed;
  }

  /** The first `k` of these counters have got these amounts on top of what they held. */
  ghost predicate ToppedUp<T(!new)>(was: map<T, Tally>, now: map<T, Tally>, tags: seq<T>, amounts: seq<Amount>, k: nat)
    requires k <= |tags| == |amounts| && forall i :: 0 <= i < |tags| ==> tags[i] in was
  {
    && now.Keys == was.Keys
    && (forall i :: 0 <= i < k ==> now[tags[i]].amount == AddedTo(was[tags[i]].amount, amounts[i].up, amounts[i].down))
    && (forall t :: t in was && t !in tags[..k] ==> now[t].amount == was[t].amount)
  }

  /** Adds taken bytes back to whatever the counters hold by now, and lists them. */
  method RestoreAll<T(==, !new)>(stats: Registry<T>, tags: seq<T>, amounts: seq<Amount>)
    requires stats.Valid() && |amounts| == |tags| && Distinct(tags)
    requires forall i :: 0 <= i < |tags| ==> tags[i] in stats.users
    modifies stats
    ensures stats.Valid() && stats.drained == old(stats.drained)
    ensures ToppedUp(old(stats.users), stats.users, tags, amounts, |tags|)
  {
    ghost var was := stats.users;
    for i := 0 to |tags|
      invariant stats.Valid() && stats.drained == old(stats.drained)
      invariant ToppedUp(was, stats.users, tags, amounts, i)
    {
      assert tags[i] !in tags[..i];
      assert tags[..i + 1] == tags[..i] + [tags[i]];
      stats.Restore(tags[i], amounts[i].up, amounts[i].down);
    }
  }

  /** Emptying counters and topping them up with what they held changes no total. */
  lemma EmptiedAndToppedUp<T(!new)>(
    was: map<T, Tally>, between: map<T, Tally>, now: map<T, Tally>, tags: seq<T>, amounts: seq<Amount>)
    requires |amounts| == |tags| && EmptiedOnly(was, between, tags) && forall i :: 0 <= i < |tags| ==> tags[i] in was
    requires forall i :: 0 <= i < |tags| ==> amounts[i] == was[tags[i]].amount
    requires forall t :: t in was ==> was[t].amount.up < U64 && was[t].amount.down < U64
    requires ToppedUp(between, now, tags, amounts, |tags|)
    ensures EmptiedOnly(was, now, [])
  {
    assert tags[..|tags|] == tags;
    forall t | t in was ensures now[t].amount == was[t].amount {
      if t in tags {
        var i :| 0 <= i < |tags| && tags[i] == t;
        assert now[tags[i]].amount == AddedTo(Zero, amounts[i].up, amounts[i].down);
      }
    }
  }

  /** One reporting cycle in one go, whatever other reporters have on their lists. On success or with upload disabled
      exactly the readable nonzero active counters are emptied; on failure no total changes. Nonzero counters stay
      listed. With no other reporter under way, every readable nonzero counter is among those reported. */
  method ReportCycle<T(==, !new), O(!new)>(stats: Registry<T>, parse: T -> Option<O>, disabled: bool, accepted: bool)
    returns (ghost tags: seq<T>, lines: seq<(O, Amount)>)
    requires stats.Valid()
    modifies stats
    ensures stats.Valid() && stats.drained == old(stats.drained) && stats.users.Keys == old(stats.users.Keys)
    ensures LinesFor(parse, old(stats.users), tags, lines) && Distinct(tags)
    ensures forall t :: t in tags <==> t in old(stats.active) && Reportable(parse, old(stats.users), t)
    ensures old(stats.drained) == multiset{} ==> forall t :: t in tags <==> Reportable(parse, old(stats.users), t)
    ensures EmptiedOnly(old(stats.users), stats.users, if disabled || accepted then tags else [])
    ensures forall t :: t in stats.users && stats.users[t].amount != Zero ==> t in stats.active || t in stats.drained
  {
    hide LinesFor;
    ghost var was := stats.users;
    var took: seq<T>, amounts: seq<Amount>;
    took, amounts, lines := Collect(stats, parse);
    tags := took;
    if lines == [] || disabled || accepted {
      NoLinesNoTags(parse, was, tags, lines);
      return;
    }
    ghost var between := stats.users;
    RestoreAll(stats, took, amounts);
    EmptiedAndToppedUp(was, between, stats.users, took, amounts);
  }

  lemma NoLinesNoTags<T(!new), O(!new)>(
    parse: T -> Option<O>, was: map<T, Tally>, tags: seq<T>, lines: seq<(O, Amount)>)
    requires LinesFor(parse, was, tags, lines)
    ensures lines == [] ==> tags == []
  {
  }
}
