/** Many sub-sessions, one writer: the frames of concurrent downlink tasks on a single wire. */
module MuxDownlink {
  import opened Common
  import opened Addr
  import opened MuxFrames

  /** What a downlink task puts into the shared channel: one frame at a time. */
  datatype Emit =
    | TcpPiece(sid: U16, data: Bytes)
    | UdpPiece(sid: U16, target: Destination, data: Bytes)
    | Ended(sid: U16)

  /** What a sub-session has to send: a byte stream in chunks, or datagrams with their senders. */
  datatype Session =
    | TcpSession(chunks: seq<Bytes>)
    | UdpSession(packets: seq<(Destination, Bytes)>)

  function TcpPieces(sid: U16, pieces: seq<Bytes>): seq<Emit> {
    seq(|pieces|, i requires 0 <= i < |pieces| => TcpPiece(sid, pieces[i]))
  }

  /** Pieces whose frame cannot be built are skipped. */
  function UdpPieces(sid: U16, target: Destination, pieces: seq<Bytes>): seq<Emit> {
    if pieces == [] then []
    else
      (if KeepUdp(sid, target, pieces[0]).Some? then [UdpPiece(sid, target, pieces[0])] else [])
      + UdpPieces(sid, target, pieces[1..])
  }

  function TcpScript(sid: U16, chunks: seq<Bytes>): seq<Emit> {
    if chunks == [] then [Ended(sid)]
    else TcpPieces(sid, Chunks(chunks[0], MAX_DATA)) + TcpScript(sid, chunks[1..])
  }

  function UdpScript(sid: U16, packets: seq<(Destination, Bytes)>): seq<Emit> {
    if packets == [] then [Ended(sid)]
    else UdpPieces(sid, packets[0].0, Chunks(packets[0].1, MAX_DATA)) + UdpScript(sid, packets[1..])
  }

  /** Everything a task emits, in its own order. */
  function Script(sid: U16, s: Session): seq<Emit> {
    match s
    case TcpSession(chunks) => TcpScript(sid, chunks)
    case UdpSession(packets) => UdpScript(sid, packets)
  }

  /** The bytes the writer puts on the wire for one emission. */
  function FrameOf(e: Emit): Bytes {
    match e
    case TcpPiece(sid, data) => KeepTcp(sid, data)
    case UdpPiece(sid, target, data) =>
      (match KeepUdp(sid, target, data) case None => [] case Some(bytes) => bytes)
    case Ended(sid) => End(sid)
  }

  function WireOf(es: seq<Emit>): Bytes {
    if es == [] then [] else FrameOf(es[0]) + WireOf(es[1..])
  }

  /** Any scheduler: at each step some task emits its next frame; finished tasks stay silent. */
  function Interleave(tasks: map<U16, seq<Emit>>, schedule: seq<U16>): seq<Emit>
    decreases |schedule|
  {
    if schedule == [] then []
    else
      var sid := schedule[0];
      if sid in tasks && tasks[sid] != [] then
        [tasks[sid][0]] + Interleave(tasks[sid := tasks[sid][1..]], schedule[1..])
      else Interleave(tasks, schedule[1..])
  }

  function Turns(schedule: seq<U16>, sid: U16): nat {
    if schedule == [] then 0 else (if schedule[0] == sid then 1 else 0) + Turns(schedule[1..], sid)
  }

  // ---- the wire reads back frame by frame ----

  /** A frame the reader accepts: data within the limit, and a sender that survives the wire. */
  predicate Sendable(text: IpText, e: Emit) {
    match e
    case TcpPiece(_, data) => |data| <= MAX_DATA
    case UdpPiece(_, target, data) => |data| <= MAX_DATA && target.network == Udp && Canonical(text, target.address)
    case Ended(_) => true
  }

  /** What the other end sees for one emission. */
  function Seen(e: Emit): Frame {
    match e
    case TcpPiece(sid, data) => Frame(Meta(sid, ST_KEEP, OPT_DATA, None), Some(data))
    case UdpPiece(sid, target, data) => Frame(Meta(sid, ST_KEEP, OPT_DATA, Some(target)), Some(data))
    case Ended(sid) => Frame(Meta(sid, ST_END, 0, None), None)
  }

  function SeenAll(es: seq<Emit>): seq<Frame> {
    seq(|es|, i requires 0 <= i < |es| => Seen(es[i]))
  }

  /** Every emitted frame keeps within 512 bytes of metadata and 8192 of data, so no length falls back to 0. */
  lemma FrameWithinLimits(text: IpText, e: Emit)
    requires Sendable(text, e)
    ensures 6 <= |FrameOf(e)| && FromBe16(FrameOf(e)) <= 264
    ensures !e.Ended? ==>
              var m := FromBe16(FrameOf(e));
              && |FrameOf(e)| == 2 + m + 2 + |e.data|
              && FromBe16(FrameOf(e)[2 + m..]) == |e.data| <= MAX_DATA
  {
    match e
    case TcpPiece(sid, data) =>
      var head := Be16(4) + Be16(sid) + [ST_KEEP, OPT_DATA];
      assert FrameOf(e) == head + Be16(|data|) + data;
      assert FrameOf(e)[..2] == head[..2] == Be16(4);
      assert FrameOf(e)[|head|..] == Be16(|data|) + data;
    case UdpPiece(sid, target, data) =>
      UdpMetaReads(text, sid, target);
      var meta := Be16(sid) + [ST_KEEP, OPT_DATA, NET_UDP] + Write(VLESS, target.address, target.port).value;
      assert FrameOf(e) == Be16(|meta|) + meta + Be16(|data|) + data;
      assert FrameOf(e)[..2] == Be16(|meta|) && FrameOf(e)[2 + |meta|..][..2] == Be16(|data|);
    case Ended(sid) =>
      assert FrameOf(e)[..2] == Be16(4);
  }

  lemma FrameReads(text: IpText, e: Emit, rest: Bytes)
    requires Sendable(text, e)
    ensures ReadFrame(text, FrameOf(e) + rest) == Got(Seen(e), rest)
  {
    hide ReadFrame, KeepTcp, KeepUdp, End, Canonical;
    match e
    case TcpPiece(sid, data) => KeepTcpReads(text, sid, data, rest);
    case UdpPiece(sid, target, data) => KeepUdpReads(text, sid, target, data, rest);
    case Ended(sid) => EndReads(text, sid, rest);
  }

  lemma NothingReads(text: IpText)
    ensures AllFrames(text, []) == ([], true)
  {
  }

  lemma {:induction false} WireReads(text: IpText, es: seq<Emit>)
    requires forall i :: 0 <= i < |es| ==> Sendable(text, es[i])
    ensures AllFrames(text, WireOf(es)) == (SeenAll(es), true)
    decreases |es|
  {
    hide ReadFrame, FrameOf, Seen, Sendable;
    if es == [] {
      NothingReads(text);
      assert SeenAll(es) == [];
    } else {
      FrameReads(text, es[0], WireOf(es[1..]));
      WireReads(text, es[1..]);
      assert SeenAll(es) == [Seen(es[0])] + SeenAll(es[1..]);
    }
  }

  // ---- interleavings ----

  function Only(es: seq<Emit>, sid: U16): seq<Emit> {
    if es == [] then []
    else if es[0].sid == sid then [es[0]] + Only(es[1..], sid)
    else Only(es[1..], sid)
  }

  ghost predicate OwnIds(tasks: map<U16, seq<Emit>>) {
    forall sid, i :: sid in tasks && 0 <= i < |tasks[sid]| ==> tasks[sid][i].sid == sid
  }

  ghost predicate AllSendable(text: IpText, tasks: map<U16, seq<Emit>>) {
    forall sid, i :: sid in tasks && 0 <= i < |tasks[sid]| ==> Sendable(text, tasks[sid][i])
  }

  /** Whatever the schedule, each session's emissions are a prefix of its own script, in order. */
  lemma {:induction false} InterleaveKeepsOrder(tasks: map<U16, seq<Emit>>, schedule: seq<U16>, sid: U16)
    requires OwnIds(tasks) && sid in tasks
    ensures Only(Interleave(tasks, schedule), sid) == tasks[sid][..Min(Turns(schedule, sid), |tasks[sid]|)]
    decreases |schedule|
  {
    if schedule != [] {
      var s := schedule[0];
      if s in tasks && tasks[s] != [] {
        var tasks' := tasks[s := tasks[s][1..]];
        var e, more := tasks[s][0], Interleave(tasks', schedule[1..]);
        assert OwnIds(tasks') && e.sid == s;
        InterleaveKeepsOrder(tasks', schedule[1..], sid);
        assert Only([e] + more, sid) == (if s == sid then [e] else []) + Only(more, sid) by {
          assert ([e] + more)[1..] == more;
        }
        if s == sid {
          var k := Min(Turns(schedule[1..], sid), |tasks'[sid]|);
          assert tasks[sid][..k + 1] == [e] + tasks'[sid][..k];
        }
      } else {
        InterleaveKeepsOrder(tasks, schedule[1..], sid);
      }
    }
  }

  lemma {:induction false} InterleaveSendable(text: IpText, tasks: map<U16, seq<Emit>>, schedule: seq<U16>)
    requires AllSendable(text, tasks)
    ensures forall i :: 0 <= i < |Interleave(tasks, schedule)| ==> Sendable(text, Interleave(tasks, schedule)[i])
    decreases |schedule|
  {
    if schedule != [] {
      hide Sendable;
      var s := schedule[0];
      if s in tasks && tasks[s] != [] {
        InterleaveSendable(text, tasks[s := tasks[s][1..]], schedule[1..]);
      } else {
        InterleaveSendable(text, tasks, schedule[1..]);
      }
    }
  }

  // ---- what one session's frames carry ----

  /** The frames of one session, out of all frames seen. */
  function FramesFor(fs: seq<Frame>, sid: U16): seq<Frame> {
    if fs == [] then []
    else if fs[0].meta.sid == sid then [fs[0]] + FramesFor(fs[1..], sid)
    else FramesFor(fs[1..], sid)
  }

  /** All data bytes carried by a list of frames. */
  function BytesIn(fs: seq<Frame>): Bytes {
    if fs == [] then [] else (if fs[0].data.Some? then fs[0].data.value else []) + BytesIn(fs[1..])
  }

  function DatagramOf(f: Frame): seq<(Destination, Bytes)> {
    if f.data.Some? && f.meta.target.Some? then [(f.meta.target.value, f.data.value)] else []
  }

  /** Datagrams carried by a list of frames, with their targets. */
  function DatagramsIn(fs: seq<Frame>): seq<(Destination, Bytes)> {
    if fs == [] then [] else DatagramOf(fs[0]) + DatagramsIn(fs[1..])
  }

  lemma {:induction false} FramesForSeen(es: seq<Emit>, sid: U16)
    ensures FramesFor(SeenAll(es), sid) == SeenAll(Only(es, sid))
  {
    if es != [] {
      FramesForSeen(es[1..], sid);
      assert SeenAll(es)[1..] == SeenAll(es[1..]);
      if es[0].sid == sid {
        assert SeenAll([es[0]] + Only(es[1..], sid)) == [Seen(es[0])] + SeenAll(Only(es[1..], sid));
      }
    }
  }

  lemma {:induction false} BytesAppend(a: seq<Frame>, b: seq<Frame>)
    ensures BytesIn(a + b) == BytesIn(a) + BytesIn(b)
  {
    if a == [] {
      assert a + b == b;
    } else {
      BytesAppend(a[1..], b);
      TailOfSum(a, b);
      Concat3(if a[0].data.Some? then a[0].data.value else [], BytesIn(a[1..]), BytesIn(b));
    }
  }

  lemma {:induction false} DatagramsAppend(a: seq<Frame>, b: seq<Frame>)
    ensures DatagramsIn(a + b) == DatagramsIn(a) + DatagramsIn(b)
  {
    if a == [] {
      assert a + b == b;
    } else {
      DatagramsAppend(a[1..], b);
      TailOfSum(a, b);
      Concat3(DatagramOf(a[0]), DatagramsIn(a[1..]), DatagramsIn(b));
    }
  }

  lemma SeenAppend(a: seq<Emit>, b: seq<Emit>)
    ensures BytesIn(SeenAll(a + b)) == BytesIn(SeenAll(a)) + BytesIn(SeenAll(b))
    ensures DatagramsIn(SeenAll(a + b)) == DatagramsIn(SeenAll(a)) + DatagramsIn(SeenAll(b))
  {
    hide BytesIn, DatagramsIn, Seen;
    assert SeenAll(a + b) == SeenAll(a) + SeenAll(b);
    BytesAppend(SeenAll(a), SeenAll(b));
    DatagramsAppend(SeenAll(a), SeenAll(b));
  }

  lemma {:induction false} TcpPiecesCarry(sid: U16, pieces: seq<Bytes>)
    ensures BytesIn(SeenAll(TcpPieces(sid, pieces))) == Join(pieces)
  {
    if pieces != [] {
      TcpPiecesCarry(sid, pieces[1..]);
      assert SeenAll(TcpPieces(sid, pieces))[1..] == SeenAll(TcpPieces(sid, pieces[1..]));
    }
  }

  /** A TCP session's frames carry exactly its bytes, however its chunks were cut. */
  lemma {:induction false} TcpScriptCarries(text: IpText, sid: U16, chunks: seq<Bytes>)
    ensures BytesIn(SeenAll(TcpScript(sid, chunks))) == Join(chunks)
    ensures forall i :: 0 <= i < |TcpScript(sid, chunks)| ==>
      TcpScript(sid, chunks)[i].sid == sid && Sendable(text, TcpScript(sid, chunks)[i])
  {
    if chunks == [] {
      assert SeenAll([Ended(sid)])[1..] == [];
    } else {
      var pieces := Chunks(chunks[0], MAX_DATA);
      TcpScriptCarries(text, sid, chunks[1..]);
      TcpPiecesCarry(sid, pieces);
      SeenAppend(TcpPieces(sid, pieces), TcpScript(sid, chunks[1..]));
    }
  }

  function Addressed(target: Destination, pieces: seq<Bytes>): seq<(Destination, Bytes)> {
    if pieces == [] then [] else [(target, pieces[0])] + Addressed(target, pieces[1..])
  }

  /** The datagrams that arrive: each cut into pieces of at most 8192 bytes, empty ones lost. */
  function Datagrams(packets: seq<(Destination, Bytes)>): seq<(Destination, Bytes)> {
    if packets == [] then [] else Addressed(packets[0].0, Chunks(packets[0].1, MAX_DATA)) + Datagrams(packets[1..])
  }

  /** Datagrams of 1 to 8192 bytes. */
  predicate AllSized(packets: seq<(Destination, Bytes)>) {
    forall i :: 0 <= i < |packets| ==> 1 <= |packets[i].1| <= MAX_DATA
  }

  lemma {:induction false} AddressedSized(target: Destination, pieces: seq<Bytes>)
    requires forall i :: 0 <= i < |pieces| ==> 0 < |pieces[i]| <= MAX_DATA
    ensures AllSized(Addressed(target, pieces))
  {
    if pieces != [] {
      AddressedSized(target, pieces[1..]);
    }
  }

  lemma {:induction false} DatagramsSized(packets: seq<(Destination, Bytes)>)
    ensures AllSized(Datagrams(packets))
  {
    hide Join;
    if packets != [] {
      DatagramsSized(packets[1..]);
      AddressedSized(packets[0].0, Chunks(packets[0].1, MAX_DATA));
    }
  }

  /** Datagrams come through one for one exactly when all have 1 to 8192 bytes. */
  lemma {:induction false} DatagramsKept(packets: seq<(Destination, Bytes)>)
    ensures Datagrams(packets) == packets <==> AllSized(packets)
  {
    DatagramsSized(packets);
    if packets != [] && AllSized(packets) {
      var (target, data) := packets[0];
      DatagramsKept(packets[1..]);
      var one: seq<Bytes> := [data];
      assert Chunks(data, MAX_DATA) == one && one[1..] == [];
      assert Addressed(target, one) == [(target, data)];
      assert packets == [(target, data)] + packets[1..];
    }
  }

  lemma {:induction false} UdpPiecesCarry(text: IpText, sid: U16, target: Destination, pieces: seq<Bytes>)
    requires target.network == Udp && Canonical(text, target.address)
    requires forall i :: 0 <= i < |pieces| ==> |pieces[i]| <= MAX_DATA
    ensures |UdpPieces(sid, target, pieces)| == |pieces|
    ensures forall i :: 0 <= i < |pieces| ==> UdpPieces(sid, target, pieces)[i] == UdpPiece(sid, target, pieces[i])
    ensures BytesIn(SeenAll(UdpPieces(sid, target, pieces))) == Join(pieces)
    ensures DatagramsIn(SeenAll(UdpPieces(sid, target, pieces))) == Addressed(target, pieces)
  {
    if pieces != [] {
      hide KeepUdp, Canonical;
      UdpPiecesCarry(text, sid, target, pieces[1..]);
      KeepUdpReads(text, sid, target, pieces[0], []);
      var es, rest := UdpPieces(sid, target, pieces), UdpPieces(sid, target, pieces[1..]);
      assert es == [UdpPiece(sid, target, pieces[0])] + rest;
      assert SeenAll(es)[1..] == SeenAll(rest);
    }
  }

  function PayloadBytes(packets: seq<(Destination, Bytes)>): Bytes {
    if packets == [] then [] else packets[0].1 + PayloadBytes(packets[1..])
  }

  ghost predicate FromCanonicalPeers(text: IpText, packets: seq<(Destination, Bytes)>) {
    forall i :: 0 <= i < |packets| ==>
      packets[i].0.network == Udp && Canonical(text, packets[i].0.address)
  }

  /** A UDP session's frames carry its bytes, and its datagrams cut at 8192 bytes: one for one exactly when none is
      empty or longer. */
  lemma {:induction false} UdpScriptCarries(text: IpText, sid: U16, packets: seq<(Destination, Bytes)>)
    requires FromCanonicalPeers(text, packets)
    ensures BytesIn(SeenAll(UdpScript(sid, packets))) == PayloadBytes(packets)
    ensures DatagramsIn(SeenAll(UdpScript(sid, packets))) == Datagrams(packets)
    ensures Datagrams(packets) == packets <==> AllSized(packets)
  {
    DatagramsKept(packets);
    if packets == [] {
      assert SeenAll([Ended(sid)])[1..] == [];
    } else {
      hide Canonical, SeenAll, UdpPieces, BytesIn, DatagramsIn, Join, Addressed, AllSized;
      var (target, data) := packets[0];
      var pieces := Chunks(data, MAX_DATA);
      UdpScriptCarries(text, sid, packets[1..]);
      UdpPiecesCarry(text, sid, target, pieces);
      SeenAppend(UdpPieces(sid, target, pieces), UdpScript(sid, packets[1..]));
    }
  }

  lemma {:induction false} UdpScriptSendable(text: IpText, sid: U16, packets: seq<(Destination, Bytes)>)
    requires FromCanonicalPeers(text, packets)
    ensures forall i :: 0 <= i < |UdpScript(sid, packets)| ==>
      UdpScript(sid, packets)[i].sid == sid && Sendable(text, UdpScript(sid, packets)[i])
  {
    if packets != [] {
      hide Canonical, UdpPieces, SeenAll;
      var (target, data) := packets[0];
      UdpScriptSendable(text, sid, packets[1..]);
      UdpPiecesCarry(text, sid, target, Chunks(data, MAX_DATA));
    }
  }

  /** A list of emissions that ends a session once, at its end. */
  ghost predicate EndsOnce(es: seq<Emit>, sid: U16) {
    && es != [] && es[|es| - 1] == Ended(sid)
    && forall i :: 0 <= i < |es| - 1 ==> !es[i].Ended?
  }

  lemma {:induction false} ScriptEndsOnce(sid: U16, s: Session)
    ensures EndsOnce(Script(sid, s), sid)
    decreases if s.TcpSession? then |s.chunks| else |s.packets|
  {
    match s {
      case TcpSession(chunks) =>
        if chunks != [] {
          ScriptEndsOnce(sid, TcpSession(chunks[1..]));
        }
      case UdpSession(packets) =>
        if packets != [] {
          ScriptEndsOnce(sid, UdpSession(packets[1..]));
          NoEndAmongPieces(sid, packets[0].0, Chunks(packets[0].1, MAX_DATA));
        }
    }
  }

  lemma {:induction false} NoEndAmongPieces(sid: U16, target: Destination, pieces: seq<Bytes>)
    ensures forall i :: 0 <= i < |UdpPieces(sid, target, pieces)| ==> !UdpPieces(sid, target, pieces)[i].Ended?
  {
    hide KeepUdp;
    if pieces != [] {
      NoEndAmongPieces(sid, target, pieces[1..]);
    }
  }

  // ---- the whole downlink ----

  ghost predicate Deliverable(text: IpText, sessions: map<U16, Session>) {
    forall sid :: sid in sessions && sessions[sid].UdpSession? ==> FromCanonicalPeers(text, sessions[sid].packets)
  }

  function Scripts(sessions: map<U16, Session>): map<U16, seq<Emit>> {
    map sid | sid in sessions :: Script(sid, sessions[sid])
  }

  /** Demultiplexing the shared wire gives each session its own emissions back, in order. */
  lemma DownlinkDemultiplexes(text: IpText, sessions: map<U16, Session>, schedule: seq<U16>, sid: U16)
    requires Deliverable(text, sessions) && sid in sessions
    ensures var wire := WireOf(Interleave(Scripts(sessions), schedule));
            var (frames, clean) := AllFrames(text, wire);
            var script := Script(sid, sessions[sid]);
            && clean
            && FramesFor(frames, sid) == SeenAll(script[..Min(Turns(schedule, sid), |script|)])
  {
    hide Script, Interleave, Sendable, AllFrames, Seen, SeenAll;
    var tasks := Scripts(sessions);
    ScriptsWellFormed(text, sessions);
    InterleaveSendable(text, tasks, schedule);
    WireReads(text, Interleave(tasks, schedule));
    InterleaveKeepsOrder(tasks, schedule, sid);
    FramesForSeen(Interleave(tasks, schedule), sid);
  }

  lemma ScriptsWellFormed(text: IpText, sessions: map<U16, Session>)
    requires Deliverable(text, sessions)
    ensures OwnIds(Scripts(sessions)) && AllSendable(text, Scripts(sessions))
  {
    forall sid | sid in sessions
      ensures forall i :: 0 <= i < |Script(sid, sessions[sid])| ==>
        Script(sid, sessions[sid])[i].sid == sid && Sendable(text, Script(sid, sessions[sid])[i])
    {
      match sessions[sid]
      case TcpSession(chunks) => TcpScriptCarries(text, sid, chunks);
      case UdpSession(packets) => UdpScriptSendable(text, sid, packets);
    }
  }

  /** Once a session has had all its turns, exactly its bytes (and datagrams) have arrived. */
  lemma FinishedSessionComplete(text: IpText, sessions: map<U16, Session>, schedule: seq<U16>, sid: U16)
    requires Deliverable(text, sessions) && sid in sessions
    requires Turns(schedule, sid) >= |Script(sid, sessions[sid])|
    ensures var mine := FramesFor(AllFrames(text, WireOf(Interleave(Scripts(sessions), schedule))).0, sid);
            match sessions[sid]
            case TcpSession(chunks) => BytesIn(mine) == Join(chunks)
            case UdpSession(packets) =>
              && BytesIn(mine) == PayloadBytes(packets)
              && DatagramsIn(mine) == Datagrams(packets)
              && (DatagramsIn(mine) == packets <==> AllSized(packets))
  {
    hide Interleave, Sendable, AllFrames, Seen, SeenAll, BytesIn, DatagramsIn, FramesFor, TcpScript, UdpScript;
    DownlinkDemultiplexes(text, sessions, schedule, sid);
    var script := Script(sid, sessions[sid]);
    assert script[..|script|] == script;
    match sessions[sid]
    case TcpSession(chunks) => TcpScriptCarries(text, sid, chunks);
    case UdpSession(packets) => UdpScriptCarries(text, sid, packets);
  }

  /** Once a session has had all its turns, its frames on the wire end with its End frame, and hold no other. */
  lemma FinishedSessionEnded(text: IpText, sessions: map<U16, Session>, schedule: seq<U16>, sid: U16)
    requires Deliverable(text, sessions) && sid in sessions
    requires Turns(schedule, sid) >= |Script(sid, sessions[sid])|
    ensures var mine := FramesFor(AllFrames(text, WireOf(Interleave(Scripts(sessions), schedule))).0, sid);
            && mine != [] && mine[|mine| - 1] == Frame(Meta(sid, ST_END, 0, None), None)
            && forall i :: 0 <= i < |mine| - 1 ==> mine[i].meta.status == ST_KEEP
  {
    hide Interleave, Sendable, AllFrames, FramesFor, Script;
    DownlinkDemultiplexes(text, sessions, schedule, sid);
    ScriptEndsOnce(sid, sessions[sid]);
    var script := Script(sid, sessions[sid]);
    assert script[..|script|] == script;
  }
}
