/** The uplink end to end: what clients put into New and Keep frames is what the sub-sessions receive. */
module MuxUplink {
  import opened Common
  import opened Io
  import opened Addr
  import opened MuxFrames
  import opened MuxDemux

  /** What a client sends. */
  datatype Up =
    | OpenUp(sid: U16, target: Destination, first: Option<Bytes>)
    | TcpUp(sid: U16, data: Bytes)
    | UdpUp(sid: U16, target: Destination, data: Bytes)
    | CloseUp(sid: U16)

  /** Within the reader's limits, and with targets that survive the wire. */
  predicate Fits(text: IpText, u: Up) {
    match u
    case OpenUp(_, target, first) => Canonical(text, target.address) && (first.Some? ==> |first.value| <= MAX_DATA)
    case TcpUp(_, data) => |data| <= MAX_DATA
    case UdpUp(_, target, data) => target.network == Udp && Canonical(text, target.address) && |data| <= MAX_DATA
    case CloseUp(_) => true
  }

  function NetByte(n: Network): Byte { if n == Tcp then 1 else 2 }

  function TargetBytes(target: Destination): Bytes {
    var w := Write(VLESS, target.address, target.port);
    [NetByte(target.network)] + if w.Some? then w.value else []
  }

  function MetaOf(u: Up): Bytes {
    match u
    case OpenUp(sid, target, first) => Be16(sid) + [1, if first.Some? then 1 else 0] + TargetBytes(target)
    case TcpUp(sid, _) => Be16(sid) + [2, 1]
    case UdpUp(sid, target, _) => Be16(sid) + [2, 1] + TargetBytes(target)
    case CloseUp(sid) => Be16(sid) + [3, 0]
  }

  function DataOf(u: Up): Option<Bytes> {
    match u
    case OpenUp(_, _, first) => first
    case TcpUp(_, data) => Some(data)
    case UdpUp(_, _, data) => Some(data)
    case CloseUp(_) => None
  }

  /** The frame of one emission, length by length. */
  function EncodeUp(u: Up): Bytes {
    var meta, data := MetaOf(u), DataOf(u);
    if |meta| > 0xFFFF || (data.Some? && |data.value| > 0xFFFF) then [] else Encode(meta, data)
  }

  function SeenUp(u: Up): Frame {
    match u
    case OpenUp(sid, target, first) => Frame(Meta(sid, ST_NEW, if first.Some? then 1 else 0, Some(target)), first)
    case TcpUp(sid, data) => Frame(Meta(sid, ST_KEEP, 1, None), Some(data))
    case UdpUp(sid, target, data) => Frame(Meta(sid, ST_KEEP, 1, Some(target)), Some(data))
    case CloseUp(sid) => Frame(Meta(sid, ST_END, 0, None), None)
  }

  function WireUp(us: seq<Up>): Bytes {
    if us == [] then [] else EncodeUp(us[0]) + WireUp(us[1..])
  }

  function SeenUps(us: seq<Up>): seq<Frame> {
    if us == [] then [] else [SeenUp(us[0])] + SeenUps(us[1..])
  }

  // ---- the wire reads back ----

  lemma MetaReads(text: IpText, u: Up)
    requires Fits(text, u)
    ensures 0 < |MetaOf(u)| <= 264 && ParseMeta(text, MetaOf(u)) == Some(SeenUp(u).meta)
  {
    hide Canonical, Write, Read, ParseTarget;
    match u
    case OpenUp(sid, target, first) =>
      NewMetaReads(text, sid, if first.Some? then 1 else 0, target);
      var w := Write(VLESS, target.address, target.port).value;
      assert MetaOf(u) == Be16(sid) + [ST_NEW, if first.Some? then 1 else 0, NetByte(target.network)] + w;
    case UdpUp(sid, target, data) =>
      UdpMetaReads(text, sid, target);
      var w := Write(VLESS, target.address, target.port).value;
      assert MetaOf(u) == Be16(sid) + [ST_KEEP, OPT_DATA, NET_UDP] + w;
    case TcpUp(sid, data) =>
      assert MetaOf(u)[..2] == Be16(sid) && FromBe16(MetaOf(u)) == sid;
    case CloseUp(sid) =>
      assert MetaOf(u)[..2] == Be16(sid) && FromBe16(MetaOf(u)) == sid;
  }

  lemma UpReads(text: IpText, u: Up, rest: Bytes)
    requires Fits(text, u)
    ensures ReadFrame(text, EncodeUp(u) + rest) == Got(SeenUp(u), rest)
  {
    MetaReads(text, u);
    hide Canonical, ReadFrame, ParseMeta, MetaOf, Encode;
    FrameRoundTrip(text, MetaOf(u), DataOf(u), rest);
  }

  lemma {:induction false} UpWireReads(text: IpText, us: seq<Up>)
    requires forall i :: 0 <= i < |us| ==> Fits(text, us[i])
    ensures AllFrames(text, WireUp(us)) == (SeenUps(us), true)
    decreases |us|
  {
    hide ReadFrame, EncodeUp, SeenUp, Fits;
    AllFramesStep(text, WireUp(us));
    if us == [] {
      NothingClosed(text);
    } else {
      UpReads(text, us[0], WireUp(us[1..]));
      UpWireReads(text, us[1..]);
    }
  }

  lemma NothingClosed(text: IpText)
    ensures ReadFrame(text, []) == Closed
  {
  }

  // ---- what a session is sent, read off the emissions alone ----

  predicate Ends(u: Up, sid: U16) { u.sid == sid && (u.OpenUp? || u.CloseUp?) }

  /** The bytes sent to a TCP session, up to the next opening or closing of its id. */
  function TcpBytes(us: seq<Up>, sid: U16): Bytes {
    if us == [] || Ends(us[0], sid) then []
    else (if us[0].sid == sid then us[0].data else []) + TcpBytes(us[1..], sid)
  }

  /** The datagrams sent to a UDP session, with their targets. */
  function UdpPairs(us: seq<Up>, sid: U16): seq<(Destination, Bytes)> {
    if us == [] || Ends(us[0], sid) then []
    else (if us[0].sid == sid && us[0].UdpUp? then [(us[0].target, us[0].data)] else []) + UdpPairs(us[1..], sid)
  }

  /** The bytes in a list of hand-overs. */
  function BytesOf(ds: seq<Delivery>): Bytes {
    if ds == [] then [] else ds[0].data + BytesOf(ds[1..])
  }

  /** The addressed datagrams in a list of hand-overs. */
  function PairsOf(ds: seq<Delivery>): seq<(Destination, Bytes)> {
    if ds == [] then []
    else (if ds[0].target.Some? then [(ds[0].target.value, ds[0].data)] else []) + PairsOf(ds[1..])
  }

  lemma {:induction false} BytesOfSum(a: seq<Delivery>, b: seq<Delivery>)
    ensures BytesOf(a + b) == BytesOf(a) + BytesOf(b) && PairsOf(a + b) == PairsOf(a) + PairsOf(b)
  {
    if a == [] {
      assert a + b == b;
    } else {
      BytesOfSum(a[1..], b);
      TailOfSum(a, b);
      Concat3(a[0].data, BytesOf(a[1..]), BytesOf(b));
      Concat3(if a[0].target.Some? then [(a[0].target.value, a[0].data)] else [], PairsOf(a[1..]), PairsOf(b));
    }
  }

  lemma OneDelivery(d: Delivery)
    ensures BytesOf([d]) == d.data
    ensures PairsOf([d]) == if d.target.Some? then [(d.target.value, d.data)] else []
  {
    assert [d][1..] == [];
    assert BytesOf([d]) == d.data + BytesOf([]) && BytesOf([]) == [] && PairsOf([]) == [];
  }

  lemma {:induction false} BroughtTcp(us: seq<Up>, sid: U16)
    ensures BytesOf(Brought(SeenUps(us), sid, false)) == TcpBytes(us, sid)
    ensures PairsOf(Brought(SeenUps(us), sid, false)) == []
  {
    if us != [] {
      var fs := SeenUps(us);
      assert fs[0] == SeenUp(us[0]) && fs[1..] == SeenUps(us[1..]);
      BroughtTcp(us[1..], sid);
      if us[0].sid == sid && !Ends(us[0], sid) {
        var d := Delivery(us[0].data, None);
        OneDelivery(d);
        BytesOfSum([d], Brought(fs[1..], sid, false));
      } else if !Ends(us[0], sid) {
        assert [] + Brought(fs[1..], sid, false) == Brought(fs[1..], sid, false);
      }
    }
  }

  lemma {:induction false} BroughtUdp(us: seq<Up>, sid: U16)
    ensures PairsOf(Brought(SeenUps(us), sid, true)) == UdpPairs(us, sid)
    ensures |Brought(SeenUps(us), sid, true)| == |UdpPairs(us, sid)|
  {
    if us != [] {
      var fs := SeenUps(us);
      assert fs[0] == SeenUp(us[0]) && fs[1..] == SeenUps(us[1..]);
      BroughtUdp(us[1..], sid);
      if us[0].sid == sid && us[0].UdpUp? {
        var d := Delivery(us[0].data, Some(us[0].target));
        OneDelivery(d);
        BytesOfSum([d], Brought(fs[1..], sid, true));
      } else if !Ends(us[0], sid) {
        assert [] + Brought(fs[1..], sid, true) == Brought(fs[1..], sid, true);
      }
    }
  }

  // ---- end to end ----

  /** What the session opened by emission `k` is sent, as hand-overs. */
  function Sent(us: seq<Up>, k: nat): seq<Delivery>
    requires k < |us| && us[k].OpenUp?
  {
    var udp := us[k].target.network == Udp;
    Opening(us[k].target, us[k].first) + Brought(SeenUps(us[k + 1..]), us[k].sid, udp)
  }

  /** For TCP these carry the bytes of the opening and of the frames behind it, none addressed; for UDP the datagrams
      with their targets, the opening's first. */
  lemma SentCarries(us: seq<Up>, k: nat)
    requires k < |us| && us[k].OpenUp?
    ensures var u, rest := us[k], us[k + 1..];
            if u.target.network == Tcp then
              && BytesOf(Sent(us, k)) == (if u.first.Some? then u.first.value else []) + TcpBytes(rest, u.sid)
              && PairsOf(Sent(us, k)) == []
            else
              && PairsOf(Sent(us, k))
                 == (if u.first.Some? then [(u.target, u.first.value)] else []) + UdpPairs(rest, u.sid)
              && |Sent(us, k)| == |PairsOf(Sent(us, k))|
    ensures us[k].target.network == Tcp && us[k].first == Some([]) ==>
              Sent(us, k) == Sent(us[k := us[k].(first := None)], k)
  {
    hide Brought;
    var u, rest := us[k], us[k + 1..];
    assert us[k := u.(first := None)][k + 1..] == rest;
    var opening, more := Opening(u.target, u.first), Brought(SeenUps(rest), u.sid, u.target.network == Udp);
    BytesOfSum(opening, more);
    BroughtTcp(rest, u.sid);
    BroughtUdp(rest, u.sid);
    if opening != [] {
      OneDelivery(opening[0]);
    }
  }

  function OpensBefore(us: seq<Up>, k: nat): nat
    requires k <= |us|
  {
    if k == 0 then 0 else OpensBefore(us, k - 1) + if us[k - 1].OpenUp? then 1 else 0
  }

  lemma {:induction false} SeenAt(us: seq<Up>, k: nat)
    requires k < |us|
    ensures |SeenUps(us)| == |us| && SeenUps(us)[k] == SeenUp(us[k]) && SeenUps(us)[k + 1..] == SeenUps(us[k + 1..])
  {
    hide SeenUp;
    if k > 0 {
      SeenAt(us[1..], k - 1);
      assert us[1..][k..] == us[k + 1..];
    } else if us[1..] != [] {
      SeenAt(us[1..], 0);
    }
  }

  lemma {:induction false} InboxesOpened(takes: Takes, us: seq<Up>, k: nat)
    requires k <= |us|
    ensures |SeenUps(us)| == |us|
    ensures |Run(takes, Empty, SeenUps(us)[..k]).inboxes| == OpensBefore(us, k)
  {
    hide Apply;
    if us != [] {
      SeenAt(us, 0);
    }
    if k > 0 {
      InboxesOpened(takes, us, k - 1);
      SeenAt(us, k - 1);
      RunSnoc(takes, Empty, SeenUps(us), k - 1);
      AppliedInboxes(takes, Run(takes, Empty, SeenUps(us)[..k - 1]), us[k - 1]);
    }
  }

  lemma AppliedInboxes(takes: Takes, st: State, u: Up)
    requires Consistent(takes, st)
    ensures |Apply(takes, st, SeenUp(u)).inboxes| == |st.inboxes| + if u.OpenUp? then 1 else 0
  {
  }

  /** Whatever mixture of sessions the clients' frames are, and however long each session's channel lasts, the inbox of
      the session that emission `k` opens holds what was sent to it, in order. */
  lemma UplinkDelivers(takes: Takes, text: IpText, us: seq<Up>, k: nat)
    requires (forall i :: 0 <= i < |us| ==> Fits(text, us[i])) && k < |us| && us[k].OpenUp?
    ensures var (frames, clean) := AllFrames(text, WireUp(us));
            var st, i := Run(takes, Empty, frames), OpensBefore(us, k);
            && clean && i < |st.inboxes|
            && st.inboxes[i] == Inbox(us[k].sid, us[k].target.network == Udp, Cut(takes(i), Sent(us, k)))
  {
    hide Brought, Opening, Apply, SeenUp, Fits;
    UpWireReads(text, us);
    SeenAt(us, k);
    InboxesOpened(takes, us, k);
    OpensSeen(us[k]);
    SessionReceivesItsOwn(takes, SeenUps(us), k);
  }

  lemma OpensSeen(u: Up)
    requires u.OpenUp?
    ensures Opens(SeenUp(u)) && SeenUp(u).meta.target.value == u.target && SeenUp(u).data == u.first
    ensures SeenUp(u).meta.sid == u.sid
  {
  }

  /** The inbox holds what was sent to the session, as far as its channel takes it; if it takes all, a TCP session has
      exactly the bytes sent to it, a UDP session the datagrams with their targets. */
  ghost predicate Received(us: seq<Up>, k: nat, box: Inbox, cap: nat)
    requires k < |us| && us[k].OpenUp?
  {
    var u, rest := us[k], us[k + 1..];
    && box.sid == u.sid && box.udp == (u.target.network == Udp) && box.got == Cut(cap, Sent(us, k))
    && (cap >= |Sent(us, k)| ==>
          if box.udp then
            PairsOf(box.got) == (if u.first.Some? then [(u.target, u.first.value)] else []) + UdpPairs(rest, u.sid)
          else
            BytesOf(box.got) == (if u.first.Some? then u.first.value else []) + TcpBytes(rest, u.sid))
  }

  lemma UplinkReceived(takes: Takes, text: IpText, us: seq<Up>, k: nat)
    requires (forall i :: 0 <= i < |us| ==> Fits(text, us[i])) && k < |us| && us[k].OpenUp?
    ensures var (frames, clean) := AllFrames(text, WireUp(us));
            var st, i := Run(takes, Empty, frames), OpensBefore(us, k);
            && clean && |frames| == |us| && i < |st.inboxes| && Received(us, k, st.inboxes[i], takes(i))
  {
    hide AllFrames, Run, Fits, Sent, Received;
    UplinkDelivers(takes, text, us, k);
    UpWireReads(text, us);
    SeenAt(us, k);
    CutReceived(us, k, takes(OpensBefore(us, k)));
  }

  lemma CutReceived(us: seq<Up>, k: nat, cap: nat)
    requires k < |us| && us[k].OpenUp?
    ensures Received(us, k, Inbox(us[k].sid, us[k].target.network == Udp, Cut(cap, Sent(us, k))), cap)
  {
    hide Sent, BytesOf, PairsOf, TcpBytes, UdpPairs;
    SentCarries(us, k);
    if cap >= |Sent(us, k)| {
      assert Cut(cap, Sent(us, k)) == Sent(us, k);
    }
  }

  /** The same through the demultiplexer itself, for every cut of the wire. */
  method DemuxUplink(conn: Conn, takes: Takes, text: IpText, ghost us: seq<Up>, ghost k: nat, patience: nat)
    returns (demuxer: Demuxer, ok: bool)
    requires conn.Valid() && conn.Unread() == WireUp(us) && patience > |us|
    requires (forall i :: 0 <= i < |us| ==> Fits(text, us[i])) && k < |us| && us[k].OpenUp?
    modifies conn
    ensures ok && OpensBefore(us, k) < |demuxer.inboxes|
    ensures Received(us, k, demuxer.inboxes[OpensBefore(us, k)], takes(OpensBefore(us, k)))
  {
    hide AllFrames, Run, Fits, Received;
    demuxer := new Demuxer(conn, [], takes);
    assert [] + conn.Unread() == WireUp(us);
    UplinkReceived(takes, text, us, k);
    ghost var frames := AllFrames(text, WireUp(us)).0;
    assert frames[..|frames|] == frames;
    ok := demuxer.Demux(text, patience);
  }
}
