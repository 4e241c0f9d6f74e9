/** The mux.cool demultiplexer: a byte-level loop that refines a machine over frames. */
module MuxDemux {
  import opened Common
  import opened Io
  import opened Addr
  import opened MuxFrames

  /** One hand-over to a sub-session: data, and for UDP the target it is meant for. */
  datatype Delivery = Delivery(data: Bytes, target: Option<Destination>)

  /** A sub-session opened by a New frame, with everything sent to it so far. */
  datatype Inbox = Inbox(sid: U16, udp: bool, got: seq<Delivery>)

  /** All sub-sessions ever opened, and which of them each id currently names. */
  datatype State = State(inboxes: seq<Inbox>, sessions: map<U16, nat>)

  const Empty := State([], map[])

  /** How many hand-overs each sub-session's channel takes before its other end is gone. */
  type Takes = nat -> nat

  /** The first `n` of these, or all. */
  function Cut(n: nat, s: seq<Delivery>): seq<Delivery> { s[..Min(n, |s|)] }

  ghost predicate Consistent(takes: Takes, st: State) {
    && (forall sid :: sid in st.sessions ==>
          st.sessions[sid] < |st.inboxes| && st.inboxes[st.sessions[sid]].sid == sid)
    && (forall i :: 0 <= i < |st.inboxes| ==> |st.inboxes[i].got| <= takes(i))
  }

  /** Data of the New frame itself: an empty first chunk is dropped for TCP, kept for UDP. */
  function Opening(target: Destination, data: Option<Bytes>): seq<Delivery> {
    if data.None? || (target.network == Tcp && data.value == []) then []
    else [Delivery(data.value, if target.network == Udp then Some(target) else None)]
  }

  /** Data of a Keep frame: a UDP sub-session takes it only with a target. */
  function Kept(udp: bool, f: Frame): seq<Delivery> {
    if f.data.None? || (udp && f.meta.target.None?) then []
    else [Delivery(f.data.value, if udp then f.meta.target else None)]
  }

  function Apply(takes: Takes, st: State, f: Frame): (r: State)
    requires Consistent(takes, st)
    ensures Consistent(takes, r)
  {
    var sid := f.meta.sid;
    if f.meta.status == ST_NEW then
      if f.meta.target.None? then st
      else
        var target, i := f.meta.target.value, |st.inboxes|;
        State(st.inboxes + [Inbox(sid, target.network == Udp, Cut(takes(i), Opening(target, f.data)))],
              st.sessions[sid := i])
    else if f.meta.status == ST_KEEP && sid in st.sessions then
      var i := st.sessions[sid];
      var box := st.inboxes[i];
      st.(inboxes := st.inboxes[i := box.(got := Cut(takes(i), box.got + Kept(box.udp, f)))])
    else if f.meta.status == ST_END then st.(sessions := st.sessions - {sid})
    else st
  }

  function Run(takes: Takes, st: State, fs: seq<Frame>): (r: State)
    requires Consistent(takes, st)
    ensures Consistent(takes, r)
    decreases |fs|
  {
    if fs == [] then st else Run(takes, Apply(takes, st, fs[0]), fs[1..])
  }

  // ---- what each sub-session receives ----

  predicate Opens(f: Frame) { f.meta.status == ST_NEW && f.meta.target.Some? }

  /** What the frames `fs` bring to a sub-session with id `sid` that is open before them:
      its own Keep frames, up to the next New or End with its id. */
  function Brought(fs: seq<Frame>, sid: U16, udp: bool): seq<Delivery> {
    if fs == [] then []
    else if fs[0].meta.sid == sid && (Opens(fs[0]) || fs[0].meta.status == ST_END) then []
    else
      (if fs[0].meta.sid == sid && fs[0].meta.status == ST_KEEP then Kept(udp, fs[0]) else [])
      + Brought(fs[1..], sid, udp)
  }

  /** The sub-session is the one its id currently names. */
  predicate Live(st: State, i: nat)
    requires i < |st.inboxes|
  {
    var sid := st.inboxes[i].sid;
    sid in st.sessions && st.sessions[sid] == i
  }

  predicate StaysOpen(f: Frame, sid: U16) {
    !(f.meta.sid == sid && (Opens(f) || f.meta.status == ST_END))
  }

  /** What one frame brings to an open sub-session. */
  function Share(f: Frame, sid: U16, udp: bool): seq<Delivery> {
    if f.meta.sid == sid && f.meta.status == ST_KEEP then Kept(udp, f) else []
  }

  /** What a step does to one inbox. */
  ghost predicate Grows(takes: Takes, st: State, f: Frame, next: State, i: nat)
    requires i < |st.inboxes|
  {
    var box := st.inboxes[i];
    && |next.inboxes| >= |st.inboxes|
    && next.inboxes[i].sid == box.sid && next.inboxes[i].udp == box.udp
    && next.inboxes[i].got == Cut(takes(i), box.got + (if Live(st, i) then Share(f, box.sid, box.udp) else []))
    && (Live(next, i) <==> Live(st, i) && StaysOpen(f, box.sid))
  }

  lemma StepInbox(takes: Takes, st: State, f: Frame, i: nat)
    requires Consistent(takes, st) && i < |st.inboxes|
    ensures Grows(takes, st, f, Apply(takes, st, f), i)
  {
    hide Kept;
    var got := st.inboxes[i].got;
    assert got + [] == got && Cut(takes(i), got) == got;
  }

  /** What the frames add to an inbox: their share if its id names it, and nothing otherwise. */
  function Added(live: bool, fs: seq<Frame>, sid: U16, udp: bool): seq<Delivery> {
    if live then Brought(fs, sid, udp) else []
  }

  lemma AddedStep(live: bool, fs: seq<Frame>, sid: U16, udp: bool)
    requires fs != []
    ensures Added(live, fs, sid, udp)
            == (if live then Share(fs[0], sid, udp) else []) + Added(live && StaysOpen(fs[0], sid), fs[1..], sid, udp)
  {
    BroughtStep(fs, sid, udp);
    hide Brought, Share, StaysOpen;
    if live && !StaysOpen(fs[0], sid) {
      assert Share(fs[0], sid, udp) + [] == Share(fs[0], sid, udp);
    }
  }

  lemma CutTwice(n: nat, a: seq<Delivery>, b: seq<Delivery>, c: seq<Delivery>)
    ensures Cut(n, Cut(n, a + b) + c) == Cut(n, a + (b + c))
  {
    assert a + b + c == a + (b + c);
  }

  /** A sub-session that is named by its id gets what the frames bring, as long as its channel takes it; any other
      gets nothing more. */
  lemma {:induction false} InboxGrows(takes: Takes, st: State, fs: seq<Frame>, i: nat)
    requires Consistent(takes, st) && i < |st.inboxes|
    ensures |Run(takes, st, fs).inboxes| >= |st.inboxes|
    ensures var box, last := st.inboxes[i], Run(takes, st, fs).inboxes[i];
            && last.sid == box.sid && last.udp == box.udp
            && last.got == Cut(takes(i), box.got + Added(Live(st, i), fs, box.sid, box.udp))
    decreases |fs|
  {
    var box, live := st.inboxes[i], Live(st, i);
    if fs == [] {
      assert box.got + Added(live, fs, box.sid, box.udp) == box.got;
    } else {
      hide Apply, Share, Live, Consistent, Added, StaysOpen, Cut;
      StepInbox(takes, st, fs[0], i);
      InboxGrows(takes, Apply(takes, st, fs[0]), fs[1..], i);
      AddedStep(live, fs, box.sid, box.udp);
      var share := if live then Share(fs[0], box.sid, box.udp) else [];
      CutTwice(takes(i), box.got, share, Added(live && StaysOpen(fs[0], box.sid), fs[1..], box.sid, box.udp));
    }
  }

  lemma BroughtStep(fs: seq<Frame>, sid: U16, udp: bool)
    requires fs != []
    ensures Brought(fs, sid, udp)
            == Share(fs[0], sid, udp) + if StaysOpen(fs[0], sid) then Brought(fs[1..], sid, udp) else []
  {
  }

  lemma {:induction false} RunAppend(takes: Takes, st: State, a: seq<Frame>, b: seq<Frame>)
    requires Consistent(takes, st)
    ensures Run(takes, st, a + b) == Run(takes, Run(takes, st, a), b)
    decreases |a|
  {
    hide Consistent, Apply;
    if a == [] {
      assert a + b == b;
    } else {
      assert (a + b)[1..] == a[1..] + b && (a + b)[0] == a[0];
      RunAppend(takes, Apply(takes, st, a[0]), a[1..], b);
    }
  }

  /** The sub-session opened by frame `k` receives exactly the data of its own New and Keep frames, from there until
      the next New or End with its id, as far as its channel takes them. */
  lemma SessionReceivesItsOwn(takes: Takes, fs: seq<Frame>, k: nat)
    requires k < |fs| && Opens(fs[k])
    ensures var i := |Run(takes, Empty, fs[..k]).inboxes|;
            var target := fs[k].meta.target.value;
            var udp := target.network == Udp;
            && i < |Run(takes, Empty, fs).inboxes|
            && Run(takes, Empty, fs).inboxes[i]
               == Inbox(fs[k].meta.sid, udp,
                        Cut(takes(i), Opening(target, fs[k].data) + Brought(fs[k + 1..], fs[k].meta.sid, udp)))
  {
    assert Consistent(takes, Empty);
    hide Opening, Brought, Apply, Consistent, Live, Run;
    var before := Run(takes, Empty, fs[..k]);
    RunThrough(takes, Empty, fs, k);
    var i, f := |before.inboxes|, fs[k];
    OpeningInbox(takes, before, f);
    InboxGrows(takes, Apply(takes, before, f), fs[k + 1..], i);
    var target := f.meta.target.value;
    var opening, more := Opening(target, f.data), Brought(fs[k + 1..], f.meta.sid, target.network == Udp);
    CutTwice(takes(i), [], opening, more);
    assert [] + opening == opening && [] + (opening + more) == opening + more;
  }

  /** A run goes through its `k`-th frame. */
  lemma RunThrough(takes: Takes, st: State, fs: seq<Frame>, k: nat)
    requires Consistent(takes, st) && k < |fs|
    ensures Run(takes, st, fs) == Run(takes, Apply(takes, Run(takes, st, fs[..k]), fs[k]), fs[k + 1..])
  {
    hide Apply, Consistent;
    assert fs == fs[..k] + fs[k..] && fs[k..][0] == fs[k] && fs[k..][1..] == fs[k + 1..];
    RunAppend(takes, st, fs[..k], fs[k..]);
  }

  lemma OpeningInbox(takes: Takes, st: State, f: Frame)
    requires Consistent(takes, st) && Opens(f)
    ensures var next, i, target := Apply(takes, st, f), |st.inboxes|, f.meta.target.value;
            && |next.inboxes| == i + 1 && Live(next, i)
            && next.inboxes[i] == Inbox(f.meta.sid, target.network == Udp, Cut(takes(i), Opening(target, f.data)))
  {
    hide Opening;
  }

  /** There is one inbox per opening frame and no other. */
  function Openings(fs: seq<Frame>): nat {
    if fs == [] then 0 else (if Opens(fs[0]) then 1 else 0) + Openings(fs[1..])
  }

  lemma {:induction false} OneInboxPerOpening(takes: Takes, st: State, fs: seq<Frame>)
    requires Consistent(takes, st)
    ensures |Run(takes, st, fs).inboxes| == |st.inboxes| + Openings(fs)
    decreases |fs|
  {
    if fs != [] {
      OneInboxPerOpening(takes, Apply(takes, st, fs[0]), fs[1..]);
    }
  }

  // ---- the stateful demultiplexer ----

  datatype NextResult = Received(frame: Frame) | Finished | Corrupt

  class Demuxer {
    const conn: Conn
    const takes: Takes
    var buf: Bytes
    var sessions: map<U16, nat>
    var inboxes: seq<Inbox>

    constructor (conn: Conn, leftover: Bytes, takes: Takes)
      ensures this.conn == conn && this.takes == takes && buf == leftover && View() == Empty
    {
      this.conn, this.takes, buf, sessions, inboxes := conn, takes, leftover, map[], [];
    }

    ghost function View(): State
      reads this
    {
      State(inboxes, sessions)
    }

    /** Bytes held plus bytes still to come. */
    ghost function Input(): Bytes
      reads this, conn
    {
      buf + conn.Unread()
    }

    /** Takes exactly `n` bytes off the input, however it arrives, or finds that it ended. */
    method Take(n: nat) returns (r: Option<Bytes>)
      requires conn.Valid()
      modifies this`buf, conn
      ensures conn.Valid()
      ensures n <= |old(Input())| ==> r == Some(old(Input())[..n]) && Input() == old(Input())[n..]
      ensures n > |old(Input())| ==> r == None && Input() == old(Input())
    {
      ghost var input := Input();
      while |buf| < n
        invariant conn.Valid() && Input() == input
        decreases |conn.Unread()|
      {
        var chunk := conn.Read(4096);
        if chunk == [] {
          return None;
        }
        buf := buf + chunk;
      }
      r, buf := Some(buf[..n]), buf[n..];
      assert input[..n] == r.value && input[n..] == Input();
    }

    method HandleNew(meta: Meta, data: Option<Bytes>)
      requires Consistent(takes, View()) && meta.status == ST_NEW
      modifies this`sessions, this`inboxes
      ensures View() == Apply(takes, old(View()), Frame(meta, data))
    {
      if meta.target.None? {
        return;
      }
      var target, i := meta.target.value, |inboxes|;
      var first: seq<Delivery> := [];
      if target.network == Udp {
        if data.Some? && takes(i) > 0 {
          first := [Delivery(data.value, Some(target))];
        }
      } else if data.Some? && data.value != [] && takes(i) > 0 {
        first := [Delivery(data.value, None)];
      }
      assert first == Cut(takes(i), Opening(target, data));
      sessions := sessions[meta.sid := i];
      inboxes := inboxes + [Inbox(meta.sid, target.network == Udp, first)];
    }

    method HandleKeep(meta: Meta, data: Bytes)
      requires Consistent(takes, View()) && meta.status == ST_KEEP
      modifies this`inboxes
      ensures View() == Apply(takes, old(View()), Frame(meta, Some(data)))
    {
      if meta.sid !in sessions {
        return;
      }
      var i := sessions[meta.sid];
      var box := inboxes[i];
      if box.udp && meta.target.None? {
        assert box.got + [] == box.got;
        return;
      }
      var delivery := Delivery(data, if box.udp then meta.target else None);
      if |box.got| < takes(i) {
        assert Cut(takes(i), box.got + [delivery]) == box.got + [delivery];
        inboxes := inboxes[i := box.(got := box.got + [delivery])];
      } else {
        assert Cut(takes(i), box.got + [delivery]) == box.got;
      }
    }

    method Dispatch(meta: Meta, data: Option<Bytes>)
      requires Consistent(takes, View()) && Known(meta.status)
      modifies this`sessions, this`inboxes
      ensures View() == Apply(takes, old(View()), Frame(meta, data))
    {
      if meta.status == ST_NEW {
        HandleNew(meta, data);
      } else if meta.status == ST_KEEP {
        if data.Some? {
          HandleKeep(meta, data.value);
        } else if meta.sid in sessions {
          ghost var got := inboxes[sessions[meta.sid]].got;
          assert got + [] == got;
        }
      } else if meta.status == ST_END {
        sessions := sessions - {meta.sid};
      }
    }

    /** Reads one frame off the input exactly as `ReadFrame` does. */
    method NextFrame(text: IpText) returns (r: NextResult)
      requires conn.Valid()
      modifies this`buf, conn
      ensures conn.Valid()
      ensures match ReadFrame(text, old(Input()))
              case Got(f, rest) => r == Received(f) && Known(f.meta.status) && Input() == rest
              case Closed => r == Finished
              case Broken => r == Corrupt
    {
      hide ReadData, ParseMeta;
      ghost var input := Input();
      var field := Take(2);
      if field.None? {
        return Finished;
      }
      assert FromBe16(field.value) == FromBe16(input);
      var metalen := FromBe16(field.value);
      if metalen == 0 || metalen > MAX_META {
        return Corrupt;
      }
      var bytes := Take(metalen);
      if bytes.None? {
        return Corrupt;
      }
      var meta := ParseMeta(text, bytes.value);
      if meta.None? {
        return Corrupt;
      }
      var data := NextData(meta.value);
      if data.None? || !Known(meta.value.status) {
        return Corrupt;
      }
      r := Received(Frame(meta.value, data.value));
    }

    /** The data part of a frame, when its metadata announces one. */
    method NextData(meta: Meta) returns (r: Option<Option<Bytes>>)
      requires conn.Valid()
      modifies this`buf, conn
      ensures conn.Valid()
      ensures match ReadData(meta, old(Input()))
              case Got(f, rest) => r.Some? && f == Frame(meta, r.value) && Input() == rest
              case Closed => r.None?
              case Broken => r.None?
    {
      if !HasData(meta.option) {
        return Some(None);
      }
      ghost var input := Input();
      var field := Take(2);
      if field.None? {
        return None;
      }
      assert FromBe16(field.value) == FromBe16(input);
      if FromBe16(field.value) > MAX_DATA {
        return None;
      }
      var data := Take(FromBe16(field.value));
      if data.None? {
        return None;
      }
      return Some(data);
    }

    /** Demultiplexes until the stream closes, breaks, or the token is cancelled before frame `patience`.
        Whatever the cuts, the outcome is that of the frame machine on the frames of the input. */
    method Demux(text: IpText, patience: nat) returns (ok: bool)
      requires conn.Valid() && Consistent(takes, View())
      modifies this, conn
      ensures var (frames, clean) := AllFrames(text, old(Input()));
              && View() == Run(takes, old(View()), frames[..Min(patience, |frames|)])
              && ok == (patience <= |frames| || clean)
    {
      hide ReadFrame, AllFrames, Apply, Consistent;
      ghost var start := View();
      ghost var frames, clean := AllFrames(text, Input()).0, AllFrames(text, Input()).1;
      assert Run(takes, start, frames[..0]) == start;
      var k := 0;
      while k < patience
        invariant k <= patience && k <= |frames| && conn.Valid() && Consistent(takes, View())
        invariant AllFrames(text, Input()) == (frames[k..], clean)
        invariant View() == Run(takes, start, frames[..k])
        decreases patience - k
      {
        hide Run;
        AllFramesStep(text, Input());
        var r := NextFrame(text);
        if !r.Received? {
          assert frames[k..] == [];
          assert frames[..k] == frames;
          return r.Finished?;
        }
        assert frames[k] == r.frame && frames[k + 1..] == frames[k..][1..];
        Dispatch(r.frame.meta, r.frame.data);
        RunSnoc(takes, start, frames, k);
        k := k + 1;
      }
      return true;
    }
  }

  lemma AllFramesStep(text: IpText, src: Bytes)
    ensures match ReadFrame(text, src)
            case Got(f, rest) => AllFrames(text, src) == ([f] + AllFrames(text, rest).0, AllFrames(text, rest).1)
            case Closed => AllFrames(text, src) == ([], true)
            case Broken => AllFrames(text, src) == ([], false)
  {
  }

  lemma RunSnoc(takes: Takes, st: State, fs: seq<Frame>, k: nat)
    requires Consistent(takes, st) && k < |fs|
    ensures Run(takes, st, fs[..k + 1]) == Apply(takes, Run(takes, st, fs[..k]), fs[k])
  {
    RunAppend(takes, st, fs[..k], [fs[k]]);
    assert fs[..k + 1] == fs[..k] + [fs[k]];
    assert [fs[k]][1..] == [];
  }
}
