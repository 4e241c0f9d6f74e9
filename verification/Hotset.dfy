/** VMess user matching: a hotset of recently seen users that only speeds up a full scan. */
module Hotset {
  import opened Common

  const HOTSET_MAX: nat := 1024

  datatype AuthKind = Active | Fallback

  datatype Match = Match(index: nat, kind: AuthKind)

  /** The first user a plain scan would find. */
  function Scan(matches: nat -> bool, from: nat, n: nat): (r: Option<nat>)
    requires from <= n
    ensures r.Some? ==> from <= r.value < n && matches(r.value) && forall j :: from <= j < r.value ==> !matches(j)
    ensures r.None? ==> forall j :: from <= j < n ==> !matches(j)
    decreases n - from
  {
    if from == n then None else if matches(from) then Some(from) else Scan(matches, from + 1, n)
  }

  /** At most one of the first `n` users matches. */
  ghost predicate Unambiguous(matches: nat -> bool, n: nat) {
    forall i, j :: 0 <= i < n && 0 <= j < n && matches(i) && matches(j) ==> i == j
  }

  /** Which indices were tried; tracks nothing when there is no hotset. */
  class TriedSet {
    const track: bool
    const slots: array<bool>

    constructor (track: bool, len: nat)
      ensures this.track == track && fresh(slots) && slots.Length == (if track then len else 0)
      ensures forall i :: 0 <= i < slots.Length ==> !slots[i]
    {
      var s := new bool[if track then len else 0](i => false);
      this.track, this.slots := track, s;
    }

    ghost function Marked(): set<nat>
      reads this, slots
    {
      set i: nat | i < slots.Length && slots[i]
    }

    method Mark(index: nat)
      modifies slots
      ensures Marked() == old(Marked()) + (if index < slots.Length then {index} else {})
    {
      if index < slots.Length {
        slots[index] := true;
      }
    }

    method Contains(index: nat) returns (r: bool)
      ensures r == (index in Marked())
    {
      r := index < slots.Length && slots[index];
    }
  }

  /** Matches an id against `n` users, hot ones first. `matches(i)` says whether user `i` fits;
      `tried` lists every user whose key was put to the test, in order. */
  method MatchUser(n: nat, matches: nat -> bool, active: seq<nat>) returns (r: Option<Match>, tried: seq<nat>)
    ensures r.Some? <==> Scan(matches, 0, n).Some?
    ensures r.Some? ==> r.value.index < n && matches(r.value.index)
    ensures Unambiguous(matches, n) && r.Some? ==> Some(r.value.index) == Scan(matches, 0, n)
    ensures Distinct(tried) && forall i :: 0 <= i < |tried| ==> tried[i] < n
    ensures r.None? ==> forall i: nat :: i < n ==> i in tried
    ensures r.Some? && r.value.kind == Active ==> r.value.index in active
    ensures r.Some? && r.value.kind == Fallback ==> forall i: nat :: i in active && i < n ==> !matches(i)
  {
    var marks := new TriedSet(active != [], n);
    assert marks.Marked() == {};
    r, tried := TryActive(n, matches, active, marks);
    if r.None? {
      ghost var hot := tried;
      r, tried := TryRest(n, matches, marks, tried);
      if r.None? {
        AllRejected(tried, n, matches);
      } else {
        forall i: nat | i in active && i < n ensures !matches(i) {
          assert i in hot;
        }
      }
    }
  }

  /** The users tried so far: none twice, all in range, none that matches. */
  ghost predicate Rejected(tried: seq<nat>, n: nat, matches: nat -> bool) {
    Distinct(tried) && forall i :: 0 <= i < |tried| ==> tried[i] < n && !matches(tried[i])
  }

  lemma RejectOne(tried: seq<nat>, index: nat)
    requires Distinct(tried) && index !in tried
    ensures Distinct(tried + [index])
    ensures forall i: nat :: i in tried + [index] <==> i in tried || i == index
  {
  }

  /** First pass, over the hotset: skips indices that are repeated or out of range. */
  method TryActive(n: nat, matches: nat -> bool, active: seq<nat>, marks: TriedSet)
    returns (r: Option<Match>, tried: seq<nat>)
    requires marks.Marked() == {} && marks.slots.Length == (if active != [] then n else 0)
    modifies marks.slots
    ensures Distinct(tried) && forall i :: 0 <= i < |tried| ==> tried[i] < n
    ensures r.Some? ==> r.value.kind == Active && r.value.index < n && matches(r.value.index) && r.value.index in active
    ensures r.None? ==>
              && Rejected(tried, n, matches)
              && (forall i: nat :: i in marks.Marked() <==> i in tried)
              && (forall i: nat :: i in active && i < n ==> i in tried)
  {
    r, tried := None, [];
    for a := 0 to |active|
      invariant Rejected(tried, n, matches)
      invariant forall i: nat :: i in marks.Marked() <==> i in tried
      invariant forall k :: 0 <= k < a && active[k] < n ==> active[k] in tried
    {
      var index := active[a];
      var seen := marks.Contains(index);
      if !seen && index < n {
        marks.Mark(index);
        RejectOne(tried, index);
        tried := tried + [index];
        if matches(index) {
          return Some(Match(index, Active)), tried;
        }
      }
    }
  }

  /** Second pass, over everyone not tried yet. */
  method TryRest(n: nat, matches: nat -> bool, marks: TriedSet, hot: seq<nat>)
    returns (r: Option<Match>, tried: seq<nat>)
    requires Rejected(hot, n, matches) && forall i: nat :: i in marks.Marked() <==> i in hot
    ensures Distinct(tried) && forall i :: 0 <= i < |tried| ==> tried[i] < n
    ensures forall i: nat :: i in hot ==> i in tried
    ensures r.Some? ==> r.value.kind == Fallback && r.value.index < n && matches(r.value.index)
    ensures r.None? ==> Rejected(tried, n, matches) && forall i: nat :: i < n ==> i in tried
  {
    r, tried := None, hot;
    for index := 0 to n
      invariant Rejected(tried, n, matches)
      invariant forall i: nat :: i in tried <==> i in hot || i < index
    {
      var seen := marks.Contains(index);
      if !seen {
        RejectOne(tried, index);
        tried := tried + [index];
        if matches(index) {
          return Some(Match(index, Fallback)), tried;
        }
      }
    }
  }

  lemma AllRejected(tried: seq<nat>, n: nat, matches: nat -> bool)
    requires Rejected(tried, n, matches) && forall i: nat :: i < n ==> i in tried
    ensures Scan(matches, 0, n).None?
  {
    forall i: nat | i < n ensures !matches(i) {
      assert i in tried;
    }
  }

  // ---- the hotset itself ----

  function Without(s: seq<nat>, x: nat): (r: seq<nat>)
    ensures |r| <= |s|
  {
    if s == [] then [] else if s[0] == x then Without(s[1..], x) else [s[0]] + Without(s[1..], x)
  }

  /** Distinct indices of a history, most recent first. */
  function ByRecency(history: seq<nat>): seq<nat> {
    if history == [] then []
    else
      var last := history[|history| - 1];
      [last] + Without(ByRecency(history[..|history| - 1]), last)
  }

  function Top(s: seq<nat>): seq<nat> { s[..Min(HOTSET_MAX, |s|)] }

  /** Moves an index to the front of the hotset, dropping the oldest when full. */
  function Remembered(active: seq<nat>, index: nat): seq<nat> {
    Top([index] + Without(active, index))
  }

  /** No index twice. */
  lemma {:induction false} ByRecencyDistinct(history: seq<nat>)
    ensures Distinct(ByRecency(history))
    ensures forall x :: x in ByRecency(history) <==> x in history
  {
    if history != [] {
      var last, older := history[|history| - 1], history[..|history| - 1];
      ByRecencyDistinct(older);
      WithoutRemoves(ByRecency(older), last);
      assert history == older + [last];
    }
  }

  lemma {:induction false} WithoutRemoves(s: seq<nat>, x: nat)
    requires Distinct(s)
    ensures Distinct(Without(s, x))
    ensures forall y :: y in Without(s, x) <==> y in s && y != x
    ensures |Without(s, x)| == if x in s then |s| - 1 else |s|
  {
    if s != [] {
      WithoutRemoves(s[1..], x);
      assert s == [s[0]] + s[1..];
      assert s[0] !in s[1..];
    }
  }

  /** Position of the last occurrence. */
  function LastUse(history: seq<nat>, x: nat): (i: nat)
    requires x in history
    ensures i < |history| && history[i] == x && forall j :: i < j < |history| ==> history[j] != x
  {
    if history[|history| - 1] == x then |history| - 1
    else
      assert history == history[..|history| - 1] + [history[|history| - 1]];
      LastUse(history[..|history| - 1], x)
  }

  /** Earlier in the list means used more recently. */
  lemma {:induction false} ByRecencyOrdered(history: seq<nat>, i: nat, j: nat)
    requires i < j < |ByRecency(history)|
    ensures ByRecency(history)[i] in history && ByRecency(history)[j] in history
    ensures LastUse(history, ByRecency(history)[i]) > LastUse(history, ByRecency(history)[j])
  {
    hide Without, Distinct, LastUse;
    var last, older := history[|history| - 1], history[..|history| - 1];
    var s, rest := ByRecency(older), Without(ByRecency(older), last);
    var r := ByRecency(history);
    assert r == [last] + rest;
    ByRecencyDistinct(older);
    WithoutRemoves(s, last);
    assert r[j] == rest[j - 1] && rest[j - 1] in rest;
    LastUseSnoc(history, r[j]);
    if i == 0 {
      LastUseSnoc(history, last);
    } else {
      assert r[i] == rest[i - 1] && rest[i - 1] in rest;
      var i', j' := WithoutIndex(s, last, i - 1, j - 1);
      ByRecencyOrdered(older, i', j');
      LastUseSnoc(history, r[i]);
    }
  }

  /** The last entry was used last; any other value keeps the position it had before. */
  lemma LastUseSnoc(history: seq<nat>, x: nat)
    requires history != [] && (x == history[|history| - 1] || x in history[..|history| - 1])
    ensures x in history
    ensures var older := history[..|history| - 1];
            if x == history[|history| - 1] then LastUse(history, x) == |history| - 1
            else LastUse(history, x) == LastUse(older, x) < |history| - 1
  {
    assert history == history[..|history| - 1] + [history[|history| - 1]];
  }

  /** Removing an element keeps the order of the others. */
  lemma {:induction false} WithoutIndex(s: seq<nat>, x: nat, i: nat, j: nat) returns (a: nat, b: nat)
    requires i < j < |Without(s, x)|
    ensures a < b < |s| && s[a] == Without(s, x)[i] && s[b] == Without(s, x)[j]
  {
    if s[0] == x {
      a, b := WithoutIndex(s[1..], x, i, j);
      a, b := a + 1, b + 1;
    } else if i == 0 {
      b := WithoutFind(s[1..], x, j - 1);
      a, b := 0, b + 1;
    } else {
      a, b := WithoutIndex(s[1..], x, i - 1, j - 1);
      a, b := a + 1, b + 1;
    }
  }

  lemma {:induction false} WithoutFind(s: seq<nat>, x: nat, j: nat) returns (b: nat)
    requires j < |Without(s, x)|
    ensures b < |s| && s[b] == Without(s, x)[j]
  {
    if s[0] == x {
      b := WithoutFind(s[1..], x, j);
      b := b + 1;
    } else if j == 0 {
      b := 0;
    } else {
      b := WithoutFind(s[1..], x, j - 1);
      b := b + 1;
    }
  }

  function RememberAll(active: seq<nat>, history: seq<nat>): seq<nat> {
    if history == [] then active
    else Remembered(RememberAll(active, history[..|history| - 1]), history[|history| - 1])
  }

  /** Cutting off the tail first makes no difference to the front. */
  lemma {:induction false} WithoutPrefix(s: seq<nat>, x: nat, k: nat)
    requires k <= |s| && Distinct(s)
    ensures var m := Min(|Without(s[..k], x)|, |Without(s, x)|);
            && Without(s[..k], x)[..m] == Without(s, x)[..m]
            && |Without(s[..k], x)| <= |Without(s, x)|
            && |Without(s[..k], x)| >= k - 1
            && (k == |s| || |Without(s[..k], x)| <= k)
  {
    if k > 0 {
      var t := s[..k];
      assert t[0] == s[0] && t[1..] == s[1..][..k - 1];
      WithoutPrefix(s[1..], x, k - 1);
      if s[0] == x {
        WithoutAbsent(s[1..], x);
        WithoutAbsent(s[1..][..k - 1], x);
      }
    }
  }

  lemma {:induction false} WithoutAbsent(s: seq<nat>, x: nat)
    requires x !in s
    ensures Without(s, x) == s
  {
    if s != [] {
      WithoutAbsent(s[1..], x);
      assert s == [s[0]] + s[1..];
    }
  }

  /** After any run of successes, the hotset is the 1024 most recent distinct users, newest first. */
  lemma {:induction false} HotsetIsMostRecent(history: seq<nat>)
    ensures RememberAll([], history) == Top(ByRecency(history))
    ensures Top(ByRecency(history)) == ByRecency(history)[..Min(1024, |ByRecency(history)|)]
  {
    if history != [] {
      var last, older := history[|history| - 1], history[..|history| - 1];
      HotsetIsMostRecent(older);
      ByRecencyDistinct(older);
      var s := ByRecency(older);
      var k := Min(HOTSET_MAX, |s|);
      WithoutPrefix(s, last, k);
      var short, full := Without(s[..k], last), Without(s, last);
      if k == |s| {
        assert s[..k] == s;
      } else {
        var m := HOTSET_MAX - 1;
        assert short[..m] == short[..|short|][..m] == full[..|short|][..m] == full[..m];
        assert Top([last] + short) == [last] + short[..m] && Top([last] + full) == [last] + full[..m];
      }
    }
  }

  /** The shared list of hot users, cleared whenever the user table is replaced. */
  class ActiveUsers<U> {
    var users: seq<U>
    var active: seq<nat>

    constructor (users: seq<U>)
      ensures this.users == users && active == []
    {
      this.users, active := users, [];
    }

    /** A new table makes the remembered positions meaningless. */
    method SetUsers(users: seq<U>)
      modifies this
      ensures this.users == users && active == []
    {
      this.users := users;
      active := [];
    }

    method Remember(index: nat)
      requires Distinct(active) && |active| <= HOTSET_MAX
      modifies this`active
      ensures active == Remembered(old(active), index)
      ensures Distinct(active) && |active| <= HOTSET_MAX
    {
      ghost var was := active;
      var pos := 0;
      while pos < |active| && active[pos] != index
        invariant 0 <= pos <= |active| && forall i :: 0 <= i < pos ==> active[i] != index
      {
        pos := pos + 1;
      }
      RemoveAt(active, index, pos);
      WithoutRemoves(active, index);
      if pos < |active| {
        active := active[..pos] + active[pos + 1..];
      }
      assert active == Without(was, index);
      active := [index] + active;
      if |active| > HOTSET_MAX {
        active := active[..|active| - 1];
      }
    }
  }

  lemma {:induction false} RemoveAt(s: seq<nat>, x: nat, pos: nat)
    requires Distinct(s) && pos <= |s| && forall i :: 0 <= i < pos ==> s[i] != x
    requires pos < |s| ==> s[pos] == x
    ensures Without(s, x) == if pos < |s| then s[..pos] + s[pos + 1..] else s
  {
    if pos == |s| {
      WithoutAbsent(s, x);
    } else if pos == 0 {
      WithoutAbsent(s[1..], x);
    } else {
      RemoveAt(s[1..], x, pos - 1);
      assert s[..pos] + s[pos + 1..] == [s[0]] + (s[1..][..pos - 1] + s[1..][pos..]);
    }
  }
}
