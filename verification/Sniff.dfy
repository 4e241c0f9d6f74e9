/** The TLS sniffer: from the first bytes of a stream to the server name of its ClientHello. */
module Sniff {
  import opened Common

  /** Whether bytes are valid UTF-8, from outside. */
  type Utf8 = Bytes -> bool

  // ---- what the sniffer computes ----

  /** No control byte or space, no trailing dot, and text. */
  predicate Acceptable(utf8: Utf8, name: Bytes) {
    && (forall i :: 0 <= i < |name| ==> name[i] > 0x20)
    && (name != [] ==> name[|name| - 1] != 0x2E)
    && utf8(name)
  }

  /** The first host name among the entries of a list, if acceptable. */
  function NameIn(utf8: Utf8, d: Bytes): Option<Bytes> {
    if |d| < 3 then None
    else
      var n := FromBe16(d[1..]);
      if |d| < 3 + n then None
      else if d[0] == 0 then (if Acceptable(utf8, d[3..3 + n]) then Some(d[3..3 + n]) else None)
      else NameIn(utf8, d[3 + n..])
  }

  function ServerName(utf8: Utf8, body: Bytes): Option<Bytes> {
    if |body| < 2 || |body| - 2 != FromBe16(body) then None else NameIn(utf8, body[2..])
  }

  /** The first server name among extensions. */
  function NameAmong(utf8: Utf8, data: Bytes): Option<Bytes> {
    if |data| < 4 then None
    else
      var kind, n := FromBe16(data), FromBe16(data[2..]);
      if |data| < 4 + n then None
      else
        var name := if kind == 0 then ServerName(utf8, data[4..4 + n]) else None;
        if name.Some? then name else NameAmong(utf8, data[4 + n..])
  }

  function AfterSession(data: Bytes): Option<Bytes> {
    if |data| < 42 || data[38] > 32 || |data| < 39 + data[38] as int then None else Some(data[39 + data[38] as int..])
  }

  function AfterCiphers(data: Bytes): Option<Bytes> {
    if |data| < 2 || FromBe16(data) % 2 == 1 || |data| < 2 + FromBe16(data) then None
    else Some(data[2 + FromBe16(data)..])
  }

  function AfterCompression(data: Bytes): Option<Bytes> {
    if |data| < 1 || |data| < 1 + data[0] as int then None else Some(data[1 + data[0] as int..])
  }

  function Extensions(data: Bytes): Option<Bytes> {
    if |data| < 2 || FromBe16(data) != |data| - 2 then None else Some(data[2..])
  }

  /** The extensions of a ClientHello message. */
  function ExtensionsOf(data: Bytes): Option<Bytes> {
    var a := AfterSession(data);
    if a.None? then None
    else
      var b := AfterCiphers(a.value);
      if b.None? then None
      else
        var c := AfterCompression(b.value);
        if c.None? then None else Extensions(c.value)
  }

  function ClientHelloName(utf8: Utf8, data: Bytes): Option<Bytes> {
    var exts := ExtensionsOf(data);
    if exts.None? then None else NameAmong(utf8, exts.value)
  }

  function SniffedName(utf8: Utf8, payload: Bytes): Option<Bytes> {
    if |payload| < 5 || payload[0] != 0x16 || payload[1] != 3 then None
    else
      var n := FromBe16(payload[3..]);
      if 5 + n > |payload| then None else ClientHelloName(utf8, payload[5..5 + n])
  }

  // ---- the walks ----

  function ReadU16(s: Bytes): (r: Option<U16>)
    ensures r == if |s| < 2 then None else Some(FromBe16(s))
  {
    if |s| == 0 then None else if |s| == 1 then None else Some(s[0] as int * 256 + s[1] as int)
  }

  method CheckName(utf8: Utf8, name: Bytes) returns (r: Option<Bytes>)
    ensures r == if Acceptable(utf8, name) then Some(name) else None
  {
    var last: Byte := 0;
    for i := 0 to |name|
      invariant forall j :: 0 <= j < i ==> name[j] > 0x20
      invariant last == if i == 0 then 0 else name[i - 1]
    {
      if name[i] <= 0x20 {
        return None;
      }
      last := name[i];
    }
    if last == 0x2E || !utf8(name) {
      return None;
    }
    return Some(name);
  }

  method ReadServerName(utf8: Utf8, body: Bytes) returns (r: Option<Bytes>)
    ensures r == ServerName(utf8, body)
  {
    hide Acceptable;
    var n := ReadU16(body);
    if n.None? {
      return None;
    }
    var d := body[2..];
    if |d| != n.value {
      return None;
    }
    while d != []
      invariant NameIn(utf8, d) == ServerName(utf8, body)
      decreases |d|
    {
      if |d| < 3 {
        return None;
      }
      var kind, size: int := d[0], FromBe16(d[1..]);
      if |d| < 3 + size {
        return None;
      }
      var name := d[3..3 + size];
      if kind == 0 {
        r := CheckName(utf8, name);
        return;
      }
      d := d[3 + size..];
    }
    return None;
  }

  method ReadClientHello(utf8: Utf8, hello: Bytes) returns (r: Option<Bytes>)
    ensures r == ClientHelloName(utf8, hello)
  {
    hide ServerName;
    var exts := SkipToExtensions(hello);
    if exts.None? {
      return None;
    }
    var data := exts.value;
    while data != []
      invariant NameAmong(utf8, data) == NameAmong(utf8, exts.value)
      decreases |data|
    {
      if |data| < 4 {
        return None;
      }
      var kind, size: int := FromBe16(data), FromBe16(data[2..]);
      if |data| < 4 + size {
        return None;
      }
      var body := data[4..4 + size];
      if kind == 0 {
        var name := ReadServerName(utf8, body);
        if name.Some? {
          return name;
        }
      }
      data := data[4 + size..];
    }
    return None;
  }

  /** The fixed part, session id, cipher suites and compression methods, each length checked before it is skipped. */
  method SkipToExtensions(hello: Bytes) returns (r: Option<Bytes>)
    ensures r == ExtensionsOf(hello)
  {
    var data := hello;
    if |data| < 42 {
      return None;
    }
    var session := data[38] as int;
    if session > 32 || |data| < 39 + session {
      return None;
    }
    data := data[39 + session..];
    var ciphers := ReadU16(data);
    if ciphers.None? || ciphers.value % 2 == 1 || |data| - 2 < ciphers.value {
      return None;
    }
    data := data[2..][ciphers.value..];
    if data == [] || |data| < 1 + data[0] as int {
      return None;
    }
    data := data[1 + data[0] as int..];
    var size := ReadU16(data);
    if size.None? || size.value != |data| - 2 {
      return None;
    }
    return Some(data[2..]);
  }

  method SniffTls(utf8: Utf8, payload: Bytes) returns (r: Option<Bytes>)
    ensures r == SniffedName(utf8, payload)
  {
    if |payload| < 5 || payload[0] != 0x16 || payload[1] != 3 {
      return None;
    }
    var end := 5 + FromBe16(payload[3..]);
    if end > |payload| {
      return None;
    }
    r := ReadClientHello(utf8, payload[5..end]);
  }

  // ---- well-formed hellos ----

  /** An entry of a server name list (section 3 of RFC 6066). */
  datatype Entry = Entry(kind: Byte, name: Bytes)

  datatype Extension = Other(kind: U16, body: Bytes) | Names(entries: seq<Entry>)

  /** A ClientHello (section 4.1.2 of RFC 8446); its first four bytes are the handshake header. */
  datatype Hello = Hello(
    header: Bytes, version: Bytes, random: Bytes, session: Bytes, ciphers: Bytes, compression: Bytes,
    exts: seq<Extension>)

  predicate EntryFits(e: Entry) { |e.name| < 0x1_0000 }

  function EncodeEntry(e: Entry): Bytes
    requires EntryFits(e)
  {
    [e.kind] + Be16(|e.name|) + e.name
  }

  predicate EntriesFit(es: seq<Entry>) { forall i :: 0 <= i < |es| ==> EntryFits(es[i]) }

  function EncodeEntries(es: seq<Entry>): Bytes
    requires EntriesFit(es)
  {
    if es == [] then [] else EncodeEntry(es[0]) + EncodeEntries(es[1..])
  }

  predicate ExtensionFits(x: Extension) {
    match x
    case Other(kind, body) => kind != 0 && |body| < 0x1_0000
    case Names(es) => EntriesFit(es) && |EncodeEntries(es)| + 2 < 0x1_0000
  }

  function ExtensionBody(x: Extension): (r: Bytes)
    requires ExtensionFits(x)
    ensures |r| < 0x1_0000
  {
    match x
    case Other(_, body) => body
    case Names(es) => Be16(|EncodeEntries(es)|) + EncodeEntries(es)
  }

  function EncodeExtension(x: Extension): Bytes
    requires ExtensionFits(x)
  {
    Be16(if x.Names? then 0 else x.kind) + Be16(|ExtensionBody(x)|) + ExtensionBody(x)
  }

  predicate ExtensionsFit(xs: seq<Extension>) { forall i :: 0 <= i < |xs| ==> ExtensionFits(xs[i]) }

  function EncodeExtensions(xs: seq<Extension>): Bytes
    requires ExtensionsFit(xs)
  {
    if xs == [] then [] else EncodeExtension(xs[0]) + EncodeExtensions(xs[1..])
  }

  predicate HelloFits(h: Hello) {
    && |h.header| == 4 && |h.version| == 2 && |h.random| == 32 && |h.session| <= 32
    && |h.ciphers| < 0x1_0000 && |h.ciphers| % 2 == 0 && |h.compression| < 256
    && ExtensionsFit(h.exts) && |EncodeExtensions(h.exts)| < 0x1_0000
  }

  function ExtensionPart(h: Hello): Bytes
    requires HelloFits(h)
  {
    Be16(|EncodeExtensions(h.exts)|) + EncodeExtensions(h.exts)
  }

  function CompressionPart(h: Hello): Bytes
    requires HelloFits(h)
  {
    [|h.compression|] + h.compression + ExtensionPart(h)
  }

  function CipherPart(h: Hello): Bytes
    requires HelloFits(h)
  {
    Be16(|h.ciphers|) + h.ciphers + CompressionPart(h)
  }

  function EncodeHello(h: Hello): Bytes
    requires HelloFits(h)
  {
    h.header + h.version + h.random + [|h.session|] + h.session + CipherPart(h)
  }

  /** A handshake record around a message. */
  function Record(minor: Byte, message: Bytes): Bytes
    requires |message| < 0x1_0000
  {
    [0x16, 3, minor] + Be16(|message|) + message
  }

  // ---- what the sniffer should find ----

  predicate IsHost(utf8: Utf8, e: Entry) { e.kind == 0 && Acceptable(utf8, e.name) }

  /** The first acceptable host name among entries. */
  function FirstHost(utf8: Utf8, es: seq<Entry>): Option<Bytes> {
    if es == [] then None else if IsHost(utf8, es[0]) then Some(es[0].name) else FirstHost(utf8, es[1..])
  }

  /** The first host name of a list, if acceptable: an unacceptable one hides those behind it. */
  function LeadingHost(utf8: Utf8, es: seq<Entry>): Option<Bytes> {
    if es == [] then None
    else if es[0].kind == 0 then (if Acceptable(utf8, es[0].name) then Some(es[0].name) else None)
    else LeadingHost(utf8, es[1..])
  }

  /** The leading host of the first list that has an acceptable one. */
  function FirstName(utf8: Utf8, xs: seq<Extension>): Option<Bytes> {
    if xs == [] then None
    else
      var name := if xs[0].Names? then LeadingHost(utf8, xs[0].entries) else None;
      if name.Some? then name else FirstName(utf8, xs[1..])
  }

  /** All name entries of a hello, in order. */
  function AllEntries(xs: seq<Extension>): seq<Entry> {
    if xs == [] then [] else (if xs[0].Names? then xs[0].entries else []) + AllEntries(xs[1..])
  }

  /** At most one host name in a list, as RFC 6066 demands. */
  predicate OneHost(es: seq<Entry>) {
    forall i, j :: 0 <= i < j < |es| && es[i].kind == 0 ==> es[j].kind != 0
  }

  predicate OneHostEach(xs: seq<Extension>) {
    forall i :: 0 <= i < |xs| && xs[i].Names? ==> OneHost(xs[i].entries)
  }

  // ---- reading back ----

  /** The head of a sized item followed by anything. */
  lemma SizedCut(front: Bytes, item: Bytes, rest: Bytes)
    requires |item| < 0x1_0000
    ensures var d, k := front + Be16(|item|) + item + rest, |front|;
            && |d| == k + 2 + |item| + |rest|
            && FromBe16(d[k..]) == |item|
            && d[k + 2..k + 2 + |item|] == item
            && d[k + 2 + |item|..] == rest
            && d[..k] == front
  {
    var d := front + Be16(|item|) + item + rest;
    assert d[|front|..] == Be16(|item|) + item + rest;
  }

  lemma {:induction false} NoHosts(utf8: Utf8, es: seq<Entry>)
    requires forall i :: 0 <= i < |es| ==> es[i].kind != 0
    ensures FirstHost(utf8, es) == None
  {
    if es != [] {
      NoHosts(utf8, es[1..]);
    }
  }

  lemma {:induction false} FirstHostAppend(utf8: Utf8, a: seq<Entry>, b: seq<Entry>)
    ensures FirstHost(utf8, a + b) == if FirstHost(utf8, a).Some? then FirstHost(utf8, a) else FirstHost(utf8, b)
  {
    if a == [] {
      assert a + b == b;
    } else {
      FirstHostAppend(utf8, a[1..], b);
      assert (a + b)[1..] == a[1..] + b;
    }
  }

  lemma {:induction false} EntriesReadBack(utf8: Utf8, es: seq<Entry>)
    requires EntriesFit(es)
    ensures NameIn(utf8, EncodeEntries(es)) == LeadingHost(utf8, es)
  {
    hide Acceptable;
    if es != [] {
      var e, rest := es[0], EncodeEntries(es[1..]);
      SizedCut([e.kind], e.name, rest);
      assert EncodeEntries(es) == [e.kind] + Be16(|e.name|) + e.name + rest;
      EntriesReadBack(utf8, es[1..]);
    }
  }

  lemma NamesReadBack(utf8: Utf8, x: Extension)
    requires x.Names? && ExtensionFits(x)
    ensures ServerName(utf8, ExtensionBody(x)) == LeadingHost(utf8, x.entries)
  {
    hide NameIn, LeadingHost, EncodeEntries;
    var es := EncodeEntries(x.entries);
    SizedCut([], es, []);
    assert [] + Be16(|es|) + es + [] == ExtensionBody(x);
    assert ExtensionBody(x)[2..] == es;
    assert ExtensionBody(x)[0..] == ExtensionBody(x);
    EntriesReadBack(utf8, x.entries);
  }

  lemma {:induction false} ExtensionsReadBack(utf8: Utf8, xs: seq<Extension>)
    requires ExtensionsFit(xs)
    ensures NameAmong(utf8, EncodeExtensions(xs)) == FirstName(utf8, xs)
  {
    hide ServerName, LeadingHost, EncodeEntries, ExtensionBody;
    if xs != [] {
      var x, rest := xs[0], EncodeExtensions(xs[1..]);
      var kind: U16 := if x.Names? then 0 else x.kind;
      SizedCut(Be16(kind), ExtensionBody(x), rest);
      var data := EncodeExtensions(xs);
      assert data == Be16(kind) + Be16(|ExtensionBody(x)|) + ExtensionBody(x) + rest;
      assert FromBe16(data) == FromBe16(data[..2]) == kind;
      ExtensionsReadBack(utf8, xs[1..]);
      if x.Names? {
        NamesReadBack(utf8, x);
      }
    }
  }

  // ---- hidden host names ----

  /** The first host name of the list is unacceptable, and an acceptable one follows. */
  ghost predicate Hidden(utf8: Utf8, es: seq<Entry>) {
    exists i, j :: 0 <= i < j < |es| && LeadsAt(es, i) && !Acceptable(utf8, es[i].name) && IsHost(utf8, es[j])
  }

  predicate LeadsAt(es: seq<Entry>, i: nat)
    requires i < |es|
  {
    es[i].kind == 0 && forall k :: 0 <= k < i ==> es[k].kind != 0
  }

  lemma {:induction false} FirstHostFound(utf8: Utf8, es: seq<Entry>)
    ensures FirstHost(utf8, es).Some? <==> exists j :: 0 <= j < |es| && IsHost(utf8, es[j])
  {
    hide IsHost;
    if es != [] {
      FirstHostFound(utf8, es[1..]);
      if j: int :| 0 <= j < |es| && IsHost(utf8, es[j]) {
        assert j > 0 ==> es[1..][j - 1] == es[j];
      }
      if j: int :| 0 <= j < |es[1..]| && IsHost(utf8, es[1..][j]) {
        assert es[j + 1] == es[1..][j];
      }
    }
  }

  /** A list gives its first acceptable host name exactly when no unacceptable one hides it. */
  lemma {:induction false} LeadingIsFirst(utf8: Utf8, es: seq<Entry>)
    ensures LeadingHost(utf8, es) == FirstHost(utf8, es) <==> !Hidden(utf8, es)
  {
    hide Acceptable;
    if es != [] {
      if es[0].kind == 0 {
        assert LeadsAt(es, 0) && forall i :: 0 < i < |es| ==> !LeadsAt(es, i);
        FirstHostFound(utf8, es[1..]);
        assert forall j :: 0 < j < |es| ==> es[j] == es[1..][j - 1];
        assert forall j :: 0 <= j < |es[1..]| ==> es[1..][j] == es[j + 1];
      } else {
        LeadingIsFirst(utf8, es[1..]);
        HiddenShift(utf8, es);
      }
    }
  }

  lemma HiddenShift(utf8: Utf8, es: seq<Entry>)
    requires es != [] && es[0].kind != 0
    ensures Hidden(utf8, es) <==> Hidden(utf8, es[1..])
  {
    hide Acceptable;
    var rest := es[1..];
    assert forall k :: 0 <= k < |rest| ==> rest[k] == es[k + 1];
    assert forall k :: 0 < k < |es| ==> es[k] == rest[k - 1];
    if i: int, j: int :| 0 <= i < j < |es| && LeadsAt(es, i) && !Acceptable(utf8, es[i].name) && IsHost(utf8, es[j]) {
      assert LeadsAt(rest, i - 1) && IsHost(utf8, rest[j - 1]);
    }
    if i: int, j: int :|
      0 <= i < j < |rest| && LeadsAt(rest, i) && !Acceptable(utf8, rest[i].name) && IsHost(utf8, rest[j])
    {
      assert LeadsAt(es, i + 1) && IsHost(utf8, es[j + 1]);
    }
  }

  /** No list hides an acceptable host name behind an unacceptable one. */
  ghost predicate NoneHidden(utf8: Utf8, xs: seq<Extension>) {
    forall i :: 0 <= i < |xs| && xs[i].Names? ==> !Hidden(utf8, xs[i].entries)
  }

  /** The first list with an acceptable host name. */
  function Decisive(utf8: Utf8, xs: seq<Extension>): (r: Option<nat>)
    ensures r.Some? ==> r.value < |xs| && xs[r.value].Names?
  {
    if xs == [] then None
    else if xs[0].Names? && FirstHost(utf8, xs[0].entries).Some? then Some(0)
    else
      var k := Decisive(utf8, xs[1..]);
      if k.Some? then Some(k.value + 1) else None
  }

  /** The list that should decide hides its host name, and no later list makes up for it with the same name. */
  ghost predicate Misled(utf8: Utf8, xs: seq<Extension>) {
    var k := Decisive(utf8, xs);
    && k.Some? && Hidden(utf8, xs[k.value].entries)
    && FirstName(utf8, xs[k.value + 1..]) != FirstHost(utf8, xs[k.value].entries)
  }

  lemma {:induction false} LeadingOrNone(utf8: Utf8, es: seq<Entry>)
    ensures LeadingHost(utf8, es) == None || LeadingHost(utf8, es) == FirstHost(utf8, es)
  {
    hide Acceptable;
    if es != [] {
      LeadingOrNone(utf8, es[1..]);
    }
  }

  /** The two readings of a hello agree exactly when it does not mislead. */
  lemma {:induction false} FirstNameIsFirstHost(utf8: Utf8, xs: seq<Extension>)
    ensures FirstName(utf8, xs) == FirstHost(utf8, AllEntries(xs)) <==> !Misled(utf8, xs)
  {
    hide LeadingHost, FirstHost, Hidden, Acceptable;
    if xs == [] {
      NoHosts(utf8, []);
    } else {
      FirstNameIsFirstHost(utf8, xs[1..]);
      if xs[0].Names? {
        var es := xs[0].entries;
        LeadingOrNone(utf8, es);
        LeadingIsFirst(utf8, es);
        FirstHostAppend(utf8, es, AllEntries(xs[1..]));
        if FirstHost(utf8, es).None? {
          MisledShift(utf8, xs);
        }
      } else {
        assert [] + AllEntries(xs[1..]) == AllEntries(xs[1..]);
        MisledShift(utf8, xs);
      }
    }
  }

  lemma MisledShift(utf8: Utf8, xs: seq<Extension>)
    requires xs != [] && (xs[0].Names? ==> FirstHost(utf8, xs[0].entries).None?)
    ensures Misled(utf8, xs) <==> Misled(utf8, xs[1..])
  {
    hide FirstHost, Hidden, FirstName;
    var k := Decisive(utf8, xs[1..]);
    if k.Some? {
      assert xs[1..][k.value] == xs[k.value + 1] && xs[1..][k.value + 1..] == xs[k.value + 2..];
    }
  }

  /** At most one server_name extension, as section 4.2 of RFC 8446 demands. */
  predicate OneNames(xs: seq<Extension>) {
    forall i, j :: 0 <= i < j < |xs| && xs[i].Names? ==> !xs[j].Names?
  }

  lemma {:induction false} NoNamesNoName(utf8: Utf8, xs: seq<Extension>)
    requires forall i :: 0 <= i < |xs| ==> !xs[i].Names?
    ensures FirstName(utf8, xs) == None
  {
    if xs != [] {
      NoNamesNoName(utf8, xs[1..]);
    }
  }

  lemma {:induction false} DecisiveIsFirst(utf8: Utf8, xs: seq<Extension>, i: nat)
    requires i < |xs| && xs[i].Names? && FirstHost(utf8, xs[i].entries).Some?
    ensures Decisive(utf8, xs).Some? && Decisive(utf8, xs).value <= i
    ensures FirstHost(utf8, xs[Decisive(utf8, xs).value].entries).Some?
  {
    hide FirstHost;
    if i > 0 {
      DecisiveIsFirst(utf8, xs[1..], i - 1);
    }
  }

  lemma {:induction false} DecisiveHasHost(utf8: Utf8, xs: seq<Extension>)
    ensures var k := Decisive(utf8, xs); k.Some? ==> FirstHost(utf8, xs[k.value].entries).Some?
  {
    hide FirstHost;
    if xs != [] {
      DecisiveHasHost(utf8, xs[1..]);
    }
  }

  lemma HiddenHasHost(utf8: Utf8, es: seq<Entry>)
    requires Hidden(utf8, es)
    ensures FirstHost(utf8, es).Some?
  {
    FirstHostFound(utf8, es);
  }

  /** A hello with one server_name extension misleads exactly when its list hides a host name. */
  lemma OneNamesMisled(utf8: Utf8, xs: seq<Extension>)
    requires OneNames(xs)
    ensures Misled(utf8, xs) <==> !NoneHidden(utf8, xs)
  {
    hide FirstHost, Hidden, FirstName, Decisive;
    var k := Decisive(utf8, xs);
    if k.Some? {
      DecisiveHasHost(utf8, xs);
      NoNamesNoName(utf8, xs[k.value + 1..]);
    }
    if !NoneHidden(utf8, xs) {
      var i :| 0 <= i < |xs| && xs[i].Names? && Hidden(utf8, xs[i].entries);
      HiddenHasHost(utf8, xs[i].entries);
      DecisiveIsFirst(utf8, xs, i);
      assert k.value == i;
    }
  }

  /** A hello with at most one host name per list, as RFC 6066 demands, hides nothing. */
  lemma OneHostHidesNothing(utf8: Utf8, xs: seq<Extension>)
    requires OneHostEach(xs)
    ensures NoneHidden(utf8, xs)
  {
    hide Hidden;
    forall i | 0 <= i < |xs| && xs[i].Names? ensures !Hidden(utf8, xs[i].entries) {
      NothingHidden(utf8, xs[i].entries);
    }
  }

  /** Any unacceptable host name hides any acceptable one behind it. */
  lemma SecondHostHidden(utf8: Utf8, bad: Bytes, good: Bytes)
    requires !Acceptable(utf8, bad) && Acceptable(utf8, good)
    ensures var es := [Entry(0, bad), Entry(0, good)];
            Hidden(utf8, es) && LeadingHost(utf8, es) == None && FirstHost(utf8, es) == Some(good)
  {
    hide Acceptable;
    var es := [Entry(0, bad), Entry(0, good)];
    assert LeadsAt(es, 0) && IsHost(utf8, es[1]);
    assert es[1..] == [Entry(0, good)];
  }

  /** For instance, one with a space in it. */
  lemma SpacedHostHides(utf8: Utf8)
    requires utf8([0x61])
    ensures Hidden(utf8, [Entry(0, [0x61, 0x20]), Entry(0, [0x61])])
  {
    var bad: Bytes := [0x61, 0x20];
    assert bad[1] == 0x20;
    SecondHostHidden(utf8, bad, [0x61]);
  }

  lemma NothingHidden(utf8: Utf8, es: seq<Entry>)
    requires OneHost(es)
    ensures !Hidden(utf8, es)
  {
    hide Acceptable;
  }

  lemma CompressionSkipped(h: Hello)
    requires HelloFits(h)
    ensures AfterCompression(CompressionPart(h)) == Some(ExtensionPart(h))
  {
    hide ExtensionPart;
  }

  lemma CiphersSkipped(h: Hello)
    requires HelloFits(h)
    ensures AfterCiphers(CipherPart(h)) == Some(CompressionPart(h))
  {
    hide CompressionPart;
    SizedCut([], h.ciphers, CompressionPart(h));
    assert [] + Be16(|h.ciphers|) + h.ciphers + CompressionPart(h) == CipherPart(h);
    assert CipherPart(h)[0..] == CipherPart(h);
  }

  lemma SessionSkipped(h: Hello)
    requires HelloFits(h)
    ensures AfterSession(EncodeHello(h)) == Some(CipherPart(h))
  {
    assert |CipherPart(h)| >= 5;
    hide CipherPart;
    var data := EncodeHello(h);
    assert data[38] == |h.session|;
    assert data[39 + |h.session|..] == CipherPart(h);
  }

  lemma ExtensionsFound(h: Hello)
    requires HelloFits(h)
    ensures ExtensionsOf(EncodeHello(h)) == Some(EncodeExtensions(h.exts))
  {
    hide EncodeExtensions, EncodeHello, CipherPart, CompressionPart, AfterSession, AfterCiphers, AfterCompression;
    SessionSkipped(h);
    CiphersSkipped(h);
    CompressionSkipped(h);
    var es := EncodeExtensions(h.exts);
    SizedCut([], es, []);
    assert [] + Be16(|es|) + es + [] == ExtensionPart(h);
    assert ExtensionPart(h)[0..] == ExtensionPart(h);
    assert ExtensionPart(h)[2..] == es;
  }

  /** What the sniffer finds in every hello in one record, whatever follows. */
  lemma SniffsAnyHello(utf8: Utf8, minor: Byte, h: Hello, tail: Bytes)
    requires HelloFits(h) && |EncodeHello(h)| < 0x1_0000
    ensures SniffedName(utf8, Record(minor, EncodeHello(h)) + tail) == FirstName(utf8, h.exts)
  {
    hide NameAmong, FirstName, EncodeHello, ExtensionsOf;
    var message := EncodeHello(h);
    RecordCut(minor, message, tail);
    ExtensionsFound(h);
    ExtensionsReadBack(utf8, h.exts);
  }

  /** The sniffer returns the first acceptable host name of a hello in one record, whatever follows, exactly when the
      hello does not mislead; with one server_name extension, exactly when its list hides no host name. */
  lemma SniffsHello(utf8: Utf8, minor: Byte, h: Hello, tail: Bytes)
    requires HelloFits(h) && |EncodeHello(h)| < 0x1_0000
    ensures SniffedName(utf8, Record(minor, EncodeHello(h)) + tail) == FirstHost(utf8, AllEntries(h.exts))
            <==> !Misled(utf8, h.exts)
    ensures OneNames(h.exts) ==>
              (SniffedName(utf8, Record(minor, EncodeHello(h)) + tail) == FirstHost(utf8, AllEntries(h.exts))
               <==> NoneHidden(utf8, h.exts))
    ensures NoneHidden(utf8, h.exts) ==>
              SniffedName(utf8, Record(minor, EncodeHello(h)) + tail) == FirstHost(utf8, AllEntries(h.exts))
  {
    hide FirstName, FirstHost, AllEntries, EncodeHello, SniffedName, Hidden;
    SniffsAnyHello(utf8, minor, h, tail);
    FirstNameIsFirstHost(utf8, h.exts);
    if OneNames(h.exts) {
      OneNamesMisled(utf8, h.exts);
    }
  }

  /** A hello whose only extension is this list of names. */
  function Bare(es: seq<Entry>): Hello {
    Hello(seq(4, i => 0), seq(2, i => 0), seq(32, i => 0), [], [], [], [Names(es)])
  }

  /** For any two names short enough, the first unacceptable and the second not: the hello that lists them in this
      order is sniffed as having no name. */
  lemma HiddenHostIsMissed(utf8: Utf8, minor: Byte, bad: Bytes, good: Bytes, tail: Bytes)
    requires !Acceptable(utf8, bad) && Acceptable(utf8, good) && |bad| <= 0x4000 && |good| <= 0x4000
    ensures var h := Bare([Entry(0, bad), Entry(0, good)]);
            && HelloFits(h) && |EncodeHello(h)| < 0x1_0000
            && FirstHost(utf8, AllEntries(h.exts)) == Some(good)
            && SniffedName(utf8, Record(minor, EncodeHello(h)) + tail) == None
  {
    hide Acceptable, SniffedName;
    var es := [Entry(0, bad), Entry(0, good)];
    var h := Bare(es);
    BareFits(bad, good);
    SecondHostHidden(utf8, bad, good);
    SniffsAnyHello(utf8, minor, h, tail);
    var xs := h.exts;
    assert xs == [Names(es)] && xs[1..] == [];
    assert AllEntries(xs) == es + AllEntries([]) == es;
    assert FirstName(utf8, xs) == FirstName(utf8, xs[1..]) == None;
  }

  lemma BareFits(bad: Bytes, good: Bytes)
    requires |bad| <= 0x4000 && |good| <= 0x4000
    ensures var h := Bare([Entry(0, bad), Entry(0, good)]); HelloFits(h) && |EncodeHello(h)| < 0x1_0000
  {
    var es := [Entry(0, bad), Entry(0, good)];
    assert es[1..] == [Entry(0, good)] && es[1..][1..] == [];
    assert EncodeEntries(es[1..]) == EncodeEntry(es[1]) + EncodeEntries([]);
    assert EncodeEntries(es) == EncodeEntry(es[0]) + EncodeEntries(es[1..]);
    assert |EncodeEntries(es)| == 6 + |bad| + |good|;
    var xs := Bare(es).exts;
    assert xs == [Names(es)] && xs[1..] == [] && ExtensionFits(xs[0]);
    assert EncodeExtensions(xs) == EncodeExtension(xs[0]) + EncodeExtensions([]);
    assert |EncodeExtensions(xs)| == 12 + |bad| + |good|;
  }

  lemma RecordCut(minor: Byte, message: Bytes, tail: Bytes)
    requires |message| < 0x1_0000
    ensures var p := Record(minor, message) + tail;
            && |p| == 5 + |message| + |tail| && p[0] == 0x16 && p[1] == 3
            && FromBe16(p[3..]) == |message| && p[5..5 + |message|] == message
  {
    var p := Record(minor, message) + tail;
    SizedCut([0x16, 3, minor], message, tail);
    assert p == [0x16, 3, minor] + Be16(|message|) + message + tail;
    assert p[0] == p[..3][0] && p[1] == p[..3][1];
  }

  /** A proper prefix of a record, whatever it carries, yields nothing. */
  lemma PrefixYieldsNothing(utf8: Utf8, minor: Byte, message: Bytes, k: nat)
    requires |message| < 0x1_0000 && k < |Record(minor, message)|
    ensures SniffedName(utf8, Record(minor, message)[..k]) == None
  {
    var whole := Record(minor, message);
    RecordCut(minor, message, []);
    assert whole + [] == whole;
    if k >= 5 {
      assert whole[..k][3..][0] == whole[3] && whole[..k][3..][1] == whole[4];
      assert FromBe16(whole[..k][3..]) == FromBe16(whole[3..]);
    }
  }

  /** More bytes never change an answer already given, for any input at all. */
  lemma AnswerStable(utf8: Utf8, payload: Bytes, tail: Bytes)
    requires SniffedName(utf8, payload).Some?
    ensures SniffedName(utf8, payload + tail) == SniffedName(utf8, payload)
  {
    hide ClientHelloName;
    var longer := payload + tail;
    assert longer[3..][0] == payload[3] && longer[3..][1] == payload[4];
    var n := FromBe16(payload[3..]);
    assert longer[5..5 + n] == payload[5..5 + n];
  }

  /** Which names are acceptable. */
  lemma NamesAccepted(utf8: Utf8, name: Bytes)
    ensures Acceptable(utf8, name) <==>
              && utf8(name) && (forall i :: 0 <= i < |name| ==> name[i] > ' ' as int)
              && (name == [] || name[|name| - 1] != '.' as int)
  {
  }

  /** Anything but a handshake record of major version 3 is refused, and so is a session id of more than 32 bytes, an
      odd number of cipher bytes, or an extension length that is not the rest of the message. */
  lemma SniffRefusals(utf8: Utf8, payload: Bytes, message: Bytes, data: Bytes)
    ensures |payload| >= 2 && (payload[0] != 0x16 || payload[1] != 3) ==> SniffedName(utf8, payload) == None
    ensures |message| >= 39 && message[38] > 32 ==> ClientHelloName(utf8, message) == None
    ensures |data| >= 2 && data[1] % 2 == 1 ==> AfterCiphers(data) == None
    ensures |data| >= 2 && data[0] as int * 256 + data[1] as int != |data| - 2 ==> Extensions(data) == None
  {
    hide NameAmong;
  }
}
