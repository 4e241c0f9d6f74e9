/** Compiling, routing and dispatching together select what the configuration asks for. */
module EgressMeaning {
  import opened Common
  import opened Decimal
  import opened Text
  import opened Egress
  import Route

  // ---- dispatch ----

  /** The outbound map: the last of several items with one tag stays. */
  function ByTag(items: seq<(string, Outbound)>): map<string, Outbound> {
    if items == [] then map[]
    else
      var last := items[|items| - 1];
      ByTag(items[..|items| - 1])[last.0 := last.1]
  }

  method BuildMap(items: seq<(string, Outbound)>) returns (m: map<string, Outbound>)
    ensures m == ByTag(items)
  {
    m := map[];
    for i := 0 to |items|
      invariant m == ByTag(items[..i])
    {
      assert items[..i + 1][..i] == items[..i];
      m := m[items[i].0 := items[i].1];
    }
    assert items[..|items|] == items;
  }

  /** The tag a decision dispatches to, if any. */
  function DispatchTag(d: Route.Decision, freedomTag: Option<string>): Option<string> {
    match d
    case Outbound(t) => Some(t)
    case Freedom => freedomTag
    case Blackhole => None
  }

  /** The outbound that handles a flow; nothing when the link is dropped. */
  function Selected(c: Compiled, q: Route.Query, geo: Route.Geo): Option<Outbound> {
    var tag := DispatchTag(Route.Routed(c.table.rules, c.table.default, q, geo), c.freedomTag);
    var byTag := ByTag(c.outbounds);
    if tag.Some? && tag.value in byTag then Some(byTag[tag.value]) else None
  }

  method Dispatch(c: Compiled, q: Route.Query, geo: Route.Geo) returns (o: Option<Outbound>)
    ensures o == Selected(c, q, geo)
  {
    var outbounds := BuildMap(c.outbounds);
    var decision := Route.RouteFlow(c.table, q, geo);
    var tag := DispatchTag(decision, c.freedomTag);
    if tag.Some? && tag.value in outbounds {
      return Some(outbounds[tag.value]);
    }
    return None;
  }

  // ---- tags ----

  lemma RouteTagInjective(a: nat, b: nat)
    requires RouteTag(a) == RouteTag(b)
    ensures a == b
  {
    hide Padded;
    assert RouteTag(a)[6..] == Padded(a) && RouteTag(b)[6..] == Padded(b);
    ValueOfPadded(a);
    ValueOfPadded(b);
  }

  lemma RouteTagIsNotDefault(a: nat)
    ensures RouteTag(a) != DEFAULT_TAG
  {
    assert RouteTag(a)[0] == 'r';
  }

  ghost predicate InOrder(kept: seq<Kept>, idx: nat) {
    && (forall i :: 0 <= i < |kept| ==> kept[i].idx >= idx)
    && (forall i, j :: 0 <= i < j < |kept| ==> kept[i].idx < kept[j].idx)
  }

  lemma {:induction false} KeptInOrder(routes: seq<RouteBlock>, idx: nat)
    ensures InOrder(KeptBlocks(routes, idx), idx)
    decreases routes
  {
    hide Effective;
    if routes != [] {
      KeptInOrder(routes[1..], idx + 1);
      var kept, rest := KeptBlocks(routes, idx), KeptBlocks(routes[1..], idx + 1);
      assert InOrder(rest, idx + 1);
      if kept != rest {
        assert kept == [kept[0]] + rest;
      }
    }
  }

  ghost predicate DistinctTags(named: seq<NamedOutbound>) {
    forall i, j :: 0 <= i < j < |named| ==> named[i].tag != named[j].tag
  }

  /** Generated tags never collide, with each other or with the default's. */
  lemma TagsUnique(cfg: Config)
    requires NormalizedSpec(cfg).Ok?
    ensures DistinctTags(NormalizedSpec(cfg).value.outbounds)
  {
    hide RouteTag, KeptBlocks, Fault;
    var kept := KeptBlocks(cfg.routes, 0);
    KeptInOrder(cfg.routes, 0);
    var named := NormalizedSpec(cfg).value.outbounds;
    assert named == OutboundsOf(kept) + [NamedOutbound(DEFAULT_TAG, Direct)];
    forall i, j | 0 <= i < j < |named| ensures named[i].tag != named[j].tag {
      assert named[i].tag == RouteTag(kept[i].idx);
      if j < |kept| {
        assert named[j].tag == RouteTag(kept[j].idx) && kept[i].idx < kept[j].idx;
        if RouteTag(kept[i].idx) == RouteTag(kept[j].idx) {
          RouteTagInjective(kept[i].idx, kept[j].idx);
        }
      } else {
        RouteTagIsNotDefault(kept[i].idx);
      }
    }
  }

  // ---- lookup ----

  lemma {:induction false} OutboundsCompiled(named: seq<NamedOutbound>)
    requires AllOutbounds(named).Ok?
    ensures var outs := AllOutbounds(named).value;
            && |outs| == |named|
            && forall i :: 0 <= i < |named| ==>
                 outs[i].0 == named[i].tag && CompileOutbound(named[i].spec) == Ok(outs[i].1)
  {
    hide CompileOutbound;
    if named != [] {
      OutboundsCompiled(named[..|named| - 1]);
    }
  }

  lemma {:induction false} LookupFinds(items: seq<(string, Outbound)>, k: nat)
    requires k < |items| && forall j :: k < j < |items| ==> items[j].0 != items[k].0
    ensures items[k].0 in ByTag(items) && ByTag(items)[items[k].0] == items[k].1
  {
    if k < |items| - 1 {
      LookupFinds(items[..|items| - 1], k);
    }
  }

  // ---- conditions and expressions ----

  predicate AnySpeaks(exprs: seq<RuleExpr>, q: Route.Query, geo: Route.Geo) {
    exists i :: 0 <= i < |exprs| && Speaks(exprs[i], q, geo)
  }

  lemma ConditionSpeaks(e: RuleExpr, q: Route.Query, geo: Route.Geo)
    ensures var c := ConditionOf(e); Speaks(e, q, geo) <==> c.Some? && Route.Matches(c.value, q, geo)
  {
    hide Route.DomainSuffixMatch, Under;
    var d := Route.QueryDomain(q);
    if d.Some? && (e.SuffixExpr? || e.FullExpr?) {
      Route.SuffixMatchIsUnder(d.value, Lower(e.name));
      LowerIdempotent(e.name);
      LowerIdempotent(if q.target.Named? then q.target.name else q.sniffed.value);
    }
  }

  lemma {:induction false} ConditionsSpeak(exprs: seq<RuleExpr>, outs: seq<string>, q: Route.Query, geo: Route.Geo)
    ensures Route.RuleMatches(Route.Rule(Conditions(exprs), outs), q, geo) <==> AnySpeaks(exprs, q, geo)
  {
    hide Route.Matches, Speaks, ConditionOf;
    if exprs != [] {
      var rest := exprs[1..];
      ConditionsSpeak(rest, outs, q, geo);
      ConditionSpeaks(exprs[0], q, geo);
      SpeaksCons(exprs, q, geo);
      var c := ConditionOf(exprs[0]);
      MatchesCons(if c.Some? then [c.value] else [], Conditions(rest), outs, q, geo);
    }
  }

  lemma SpeaksCons(exprs: seq<RuleExpr>, q: Route.Query, geo: Route.Geo)
    requires exprs != []
    ensures AnySpeaks(exprs, q, geo) <==> Speaks(exprs[0], q, geo) || AnySpeaks(exprs[1..], q, geo)
  {
    hide Speaks;
    if AnySpeaks(exprs, q, geo) && !Speaks(exprs[0], q, geo) {
      var i :| 0 <= i < |exprs| && Speaks(exprs[i], q, geo);
      assert exprs[1..][i - 1] == exprs[i];
    }
    if AnySpeaks(exprs[1..], q, geo) {
      var i :| 0 <= i < |exprs| - 1 && Speaks(exprs[1..][i], q, geo);
      assert exprs[i + 1] == exprs[1..][i];
    }
  }

  lemma MatchesCons(
    a: seq<Route.Condition>, b: seq<Route.Condition>, outs: seq<string>, q: Route.Query, geo: Route.Geo)
    requires |a| <= 1
    ensures Route.RuleMatches(Route.Rule(a + b, outs), q, geo) <==>
              (|a| == 1 && Route.Matches(a[0], q, geo)) || Route.RuleMatches(Route.Rule(b, outs), q, geo)
  {
    hide Route.Matches;
    var all := a + b;
    if i: int :| 0 <= i < |all| && Route.Matches(all[i], q, geo) {
      assert i >= |a| ==> all[i] == b[i - |a|];
      assert i < |a| ==> all[i] == a[0];
    }
    if i: int :| 0 <= i < |b| && Route.Matches(b[i], q, geo) {
      assert all[i + |a|] == b[i];
    }
    if |a| == 1 {
      assert all[0] == a[0];
    }
  }

  /** Only the lines that parse can apply. */
  lemma {:induction false} EffectiveSpeaks(raws: seq<string>, q: Route.Query, geo: Route.Geo)
    ensures AnySpeaks(Effective(raws), q, geo) <==>
              exists i :: 0 <= i < |raws| && LineApplies(raws[i], q, geo)
  {
    hide Speaks, ParseRule;
    if raws != [] {
      var rest, e := raws[1..], ParseRule(raws[0]);
      EffectiveSpeaks(rest, q, geo);
      if e.Some? {
        SpeaksCons(Effective(raws), q, geo);
        assert Effective(raws)[1..] == Effective(rest);
      } else {
        assert Effective(raws) == Effective(rest);
      }
      LinesCons(raws, q, geo);
    }
  }

  lemma LinesCons(raws: seq<string>, q: Route.Query, geo: Route.Geo)
    requires raws != []
    ensures (exists i :: 0 <= i < |raws| && LineApplies(raws[i], q, geo)) <==>
              LineApplies(raws[0], q, geo) || exists i :: 0 <= i < |raws[1..]| && LineApplies(raws[1..][i], q, geo)
  {
    hide LineApplies;
    if i: int :| 0 <= i < |raws| && LineApplies(raws[i], q, geo) {
      assert i > 0 ==> raws[1..][i - 1] == raws[i];
    }
    if i: int :| 0 <= i < |raws[1..]| && LineApplies(raws[1..][i], q, geo) {
      assert raws[i + 1] == raws[1..][i];
    }
  }

  /** Domain rules look at the target's own name if it has one, else at the sniffed name, in any case of letters;
      without either they never apply. */
  lemma NameDecides(n: string, q: Route.Query, geo: Route.Geo)
    ensures q.target.Named? ==>
              (Speaks(SuffixExpr(n), q, geo) <==> Under(Lower(q.target.name), Lower(n)))
              && (Speaks(GeoSiteExpr(n), q, geo) <==> geo.site(n, Lower(q.target.name)))
    ensures q.target.Numeric? && q.sniffed.Some? ==>
              (Speaks(SuffixExpr(n), q, geo) <==> Under(Lower(q.sniffed.value), Lower(n)))
              && (Speaks(GeoSiteExpr(n), q, geo) <==> geo.site(n, Lower(q.sniffed.value)))
    ensures q.target.Numeric? && q.sniffed.None? ==> !Speaks(SuffixExpr(n), q, geo) && !Speaks(GeoSiteExpr(n), q, geo)
    ensures Speaks(FullExpr(n), q, geo) <==> Speaks(SuffixExpr(n), q, geo)
    ensures !Speaks(KeywordExpr(n), q, geo)
    ensures Speaks(GeoIpExpr(n), q, geo) <==> q.target.Numeric? && geo.ip(n, q.target.ip)
  {
    hide Under;
  }

  // ---- the table and the interpreter choose alike ----

  /** The first surviving block that speaks of the flow. */
  function FirstKept(kept: seq<Kept>, q: Route.Query, geo: Route.Geo): (r: Option<nat>)
    ensures r.Some? ==> r.value < |kept|
  {
    if kept == [] then None
    else if AnySpeaks(kept[0].rules, q, geo) then Some(0)
    else
      var i := FirstKept(kept[1..], q, geo);
      if i.Some? then Some(i.value + 1) else None
  }

  /** Routing over the compiled table picks that block's tag. */
  lemma {:induction false} TableFollowsKept(kept: seq<Kept>, q: Route.Query, geo: Route.Geo)
    ensures var i := FirstKept(kept, q, geo);
            Route.Routed(RulesOf(RoutesOf(kept)), Route.Freedom, q, geo)
            == if i.Some? then Route.Outbound(RouteTag(kept[i.value].idx)) else Route.Freedom
  {
    hide Speaks, Conditions, RouteTag, Route.Matches;
    if kept != [] {
      TableFollowsKept(kept[1..], q, geo);
      var routes := RoutesOf(kept);
      assert routes[1..] == RoutesOf(kept[1..]);
      var conds := Conditions(routes[0].rules);
      var rule := Route.Rule(conds, [routes[0].tag]);
      ConditionsSpeak(kept[0].rules, [routes[0].tag], q, geo);
      if conds == [] {
        assert RulesOf(routes) == RulesOf(routes[1..]);
      } else {
        assert RulesOf(routes) == [rule] + RulesOf(routes[1..]);
        assert RulesOf(routes)[1..] == RulesOf(routes[1..]);
      }
    }
  }

  /** Interpreting the file picks that block's outbound. */
  lemma {:induction false} InterpreterFollowsKept(routes: seq<RouteBlock>, idx: nat, q: Route.Query, geo: Route.Geo)
    requires Fault(routes, idx).None?
    ensures var kept := KeptBlocks(routes, idx);
            var i := FirstKept(kept, q, geo);
            Interpreted(routes, q, geo) == if i.Some? then [kept[i.value].spec] else [Direct]
    decreases routes
  {
    hide AnySpeaks, LineApplies, Effective, RouteTag;
    if routes != [] {
      InterpreterFollowsKept(routes[1..], idx + 1, q, geo);
      EffectiveSpeaks(routes[0].rules, q, geo);
      var kept, rest := KeptBlocks(routes, idx), KeptBlocks(routes[1..], idx + 1);
      if Effective(routes[0].rules) == [] {
        NothingSpeaks(q, geo);
      } else {
        assert routes[0].outs == [routes[0].outs[0]];
        assert kept[1..] == rest;
      }
    }
  }

  lemma NothingSpeaks(q: Route.Query, geo: Route.Geo)
    ensures !AnySpeaks([], q, geo)
  {
  }

  /** Surviving blocks and the default are found under their tags. */
  lemma TagResolves(cfg: Config, k: nat)
    requires cfg.enable && CompiledSpec(cfg).Ok? && k <= |KeptBlocks(cfg.routes, 0)|
    ensures var kept := KeptBlocks(cfg.routes, 0);
            var byTag := ByTag(CompiledSpec(cfg).value.outbounds);
            var tag := if k < |kept| then RouteTag(kept[k].idx) else DEFAULT_TAG;
            tag in byTag && CompileOutbound(if k < |kept| then kept[k].spec else Direct) == Ok(byTag[tag])
  {
    hide CompileOutbound, AllOutbounds, KeptBlocks, ByTag, RulesOf, RouteTag, Fault;
    var kept := KeptBlocks(cfg.routes, 0);
    var named := NormalizedSpec(cfg).value.outbounds;
    assert named == OutboundsOf(kept) + [NamedOutbound(DEFAULT_TAG, Direct)];
    OutboundsCompiled(named);
    TagsUnique(cfg);
    LookupFinds(CompiledSpec(cfg).value.outbounds, k);
  }

  /** The meaning of a compiled configuration, block by block. */
  lemma SelectedIsKept(cfg: Config, q: Route.Query, geo: Route.Geo)
    requires cfg.enable && CompiledSpec(cfg).Ok?
    ensures var kept := KeptBlocks(cfg.routes, 0);
            var i := FirstKept(kept, q, geo);
            var got := Selected(CompiledSpec(cfg).value, q, geo);
            got.Some? && CompileOutbound(if i.Some? then kept[i.value].spec else Direct) == Ok(got.value)
  {
    hide CompileOutbound, AllOutbounds, KeptBlocks, ByTag, RulesOf, RoutesOf, OutboundsOf;
    hide Route.Routed, RouteTag, Fault, FirstKept;
    var kept := KeptBlocks(cfg.routes, 0);
    var i := FirstKept(kept, q, geo);
    TableFollowsKept(kept, q, geo);
    TagResolves(cfg, if i.Some? then i.value else |kept|);
  }

  /** The cipher names in use, and what each stands for. */
  function CipherTable(): map<string, CipherKind> {
    map[
      "aes-128-gcm" := Aes128Gcm, "AEAD_AES_128_GCM" := Aes128Gcm,
      "aes-256-gcm" := Aes256Gcm, "AEAD_AES_256_GCM" := Aes256Gcm,
      "chacha20-ietf-poly1305" := ChaCha20Poly1305, "chacha20-poly1305" := ChaCha20Poly1305,
      "AEAD_CHACHA20_POLY1305" := ChaCha20Poly1305,
      "xchacha20-ietf-poly1305" := XChaCha20Poly1305, "xchacha20-poly1305" := XChaCha20Poly1305]
  }

  /** The outbound does what the specification says. */
  predicate Serves(spec: OutSpec, o: Outbound) {
    match spec
    case Direct => o.Freedom?
    case Block => o.Blackhole?
    case Shadowsocks(server, port, password, cipher) =>
      && o.SsOutbound? && o.server == server && o.port == port && o.password == password
      && cipher in CipherTable() && o.kind == CipherTable()[cipher]
    case Socks(server, port, username, password) =>
      o.SocksOutbound? && o.server == server && o.port == port && o.username == username && o.socksPassword == password
  }

  lemma CipherNames(name: string)
    ensures MethodKind(name) == if name in CipherTable() then Some(CipherTable()[name]) else None
  {
  }

  /** A specification compiles exactly when its cipher, if any, is in the table, and then to what it says. */
  lemma OutboundMeans(spec: OutSpec)
    ensures CompileOutbound(spec).Ok? <==> (spec.Shadowsocks? ==> spec.cipher in CipherTable())
    ensures forall o :: CompileOutbound(spec) == Ok(o) <==> Serves(spec, o)
  {
    hide MethodKind, CipherTable;
    if spec.Shadowsocks? {
      CipherNames(spec.cipher);
    }
  }

  /** For every configuration that compiles, every flow and every geo oracle: routing and dispatch reach an outbound,
      and it does what the configuration asks for. */
  lemma CompileMeansInterpret(cfg: Config, q: Route.Query, geo: Route.Geo)
    requires CompiledSpec(cfg).Ok?
    ensures var wanted := Interpret(cfg, q, geo);
            var got := Selected(CompiledSpec(cfg).value, q, geo);
            |wanted| == 1 && got.Some? && Serves(wanted[0], got.value)
  {
    if !cfg.enable {
      OffMeansDirect(cfg, q, geo);
    } else {
      assert Fault(cfg.routes, 0).None?;
      hide CompiledSpec, CompileOutbound, KeptBlocks, Interpreted, Selected, FirstKept, Fault, Serves;
      SelectedIsKept(cfg, q, geo);
      InterpreterFollowsKept(cfg.routes, 0, q, geo);
      OutboundMeans(Interpret(cfg, q, geo)[0]);
    }
  }

  /** Flows are dropped exactly where the configuration blocks, and go out directly exactly where it says so or says
      nothing. */
  lemma BlockedExactly(cfg: Config, q: Route.Query, geo: Route.Geo)
    requires CompiledSpec(cfg).Ok?
    ensures Selected(CompiledSpec(cfg).value, q, geo) == Some(Blackhole) <==> Interpret(cfg, q, geo) == [Block]
    ensures Selected(CompiledSpec(cfg).value, q, geo) == Some(Freedom) <==> Interpret(cfg, q, geo) == [Direct]
  {
    hide CompiledSpec, Selected, Interpret, CipherTable;
    CompileMeansInterpret(cfg, q, geo);
    var wanted := Interpret(cfg, q, geo);
    assert wanted == [wanted[0]];
  }

  lemma OffMeansDirect(cfg: Config, q: Route.Query, geo: Route.Geo)
    requires !cfg.enable
    ensures Selected(CompiledSpec(cfg).value, q, geo) == Some(Freedom) && CompileOutbound(Direct) == Ok(Freedom)
  {
    hide ByTag, MethodKind;
    LookupFinds(CompiledSpec(cfg).value.outbounds, 0);
  }

  // ---- when a configuration compiles ----

  /** A block the compiler accepts: without effective rules, or with exactly one outbound, whose cipher is known. */
  predicate BlockCompiles(block: RouteBlock) {
    || Effective(block.rules) == []
    || (|block.outs| == 1 && (block.outs[0].Shadowsocks? ==> block.outs[0].cipher in CipherTable()))
  }

  predicate AllBuild(kept: seq<Kept>) {
    forall i :: 0 <= i < |kept| ==> CompileOutbound(kept[i].spec).Ok?
  }

  predicate AllCompile(routes: seq<RouteBlock>) {
    forall i :: 0 <= i < |routes| ==> BlockCompiles(routes[i])
  }

  lemma AllBuildCons(k: Kept, rest: seq<Kept>)
    ensures AllBuild([k] + rest) <==> CompileOutbound(k.spec).Ok? && AllBuild(rest)
  {
    hide CompileOutbound;
    var all := [k] + rest;
    assert all[0] == k && forall i :: 0 <= i < |rest| ==> rest[i] == all[i + 1];
  }

  lemma AllCompileCons(routes: seq<RouteBlock>)
    requires routes != []
    ensures AllCompile(routes) <==> BlockCompiles(routes[0]) && AllCompile(routes[1..])
  {
    hide BlockCompiles;
    assert forall i :: 0 <= i < |routes| - 1 ==> routes[1..][i] == routes[i + 1];
  }

  lemma {:induction false} KeptAccepted(routes: seq<RouteBlock>, idx: nat)
    ensures Fault(routes, idx).None? && AllBuild(KeptBlocks(routes, idx)) <==> AllCompile(routes)
    decreases routes
  {
    hide Effective, CompileOutbound, RouteTag, AllBuild, AllCompile, CipherTable, Serves;
    if routes == [] {
      NothingFails();
    } else {
      KeptAccepted(routes[1..], idx + 1);
      AllCompileCons(routes);
      if Effective(routes[0].rules) != [] && |routes[0].outs| == 1 {
        OutboundMeans(routes[0].outs[0]);
        AllBuildCons(Kept(idx, Effective(routes[0].rules), routes[0].outs[0]), KeptBlocks(routes[1..], idx + 1));
      }
    }
  }

  lemma NothingFails()
    ensures AllBuild([]) && AllCompile([])
  {
  }

  lemma {:induction false} AllOutboundsOk(named: seq<NamedOutbound>)
    ensures AllOutbounds(named).Ok? <==> forall i :: 0 <= i < |named| ==> CompileOutbound(named[i].spec).Ok?
  {
    hide CompileOutbound;
    if named != [] {
      AllOutboundsOk(named[..|named| - 1]);
      assert named[..|named| - 1] + [named[|named| - 1]] == named;
    }
  }

  lemma OutboundsBuild(kept: seq<Kept>)
    ensures AllOutbounds(OutboundsOf(kept) + [NamedOutbound(DEFAULT_TAG, Direct)]).Ok? <==> AllBuild(kept)
  {
    hide RouteTag, MethodKind;
    var named := OutboundsOf(kept) + [NamedOutbound(DEFAULT_TAG, Direct)];
    AllOutboundsOk(named);
    assert forall i :: 0 <= i < |kept| ==> named[i].spec == kept[i].spec;
    assert CompileOutbound(Direct).Ok?;
  }

  /** Exactly the configurations that are switched off, or whose blocks are all acceptable, compile. */
  lemma CompilesExactlyWhen(cfg: Config)
    ensures CompiledSpec(cfg).Ok? <==> !cfg.enable || AllCompile(cfg.routes)
  {
    hide KeptBlocks, Fault, AllCompile, AllBuild, CompileOutbound, RouteTag, RulesOf, AllOutbounds;
    KeptAccepted(cfg.routes, 0);
    OutboundsBuild(KeptBlocks(cfg.routes, 0));
  }

  /** Tags count the blocks of the file from 0, in three digits or more. */
  lemma RouteTagForm()
    ensures RouteTag(0) == "route-000" && RouteTag(7) == "route-007" && RouteTag(42) == "route-042"
    ensures RouteTag(123) == "route-123" && RouteTag(1234) == "route-1234" && DEFAULT_TAG == "default-direct"
  {
    assert Digits(0) == "0" && Digits(7) == "7" && Digits(4) == "4" && Digits(42) == "42";
    assert Digits(1) == "1" && Digits(12) == "12" && Digits(123) == "123" && Digits(1234) == "1234";
  }

  /** The error names the first block that is at fault, and how many outbounds it has. */
  lemma {:induction false} FaultIsFirst(routes: seq<RouteBlock>, idx: nat, k: nat)
    requires k < |routes| && Effective(routes[k].rules) != [] && |routes[k].outs| != 1
    requires forall i :: 0 <= i < k ==> Effective(routes[i].rules) == [] || |routes[i].outs| == 1
    ensures Fault(routes, idx) == Some(WrongOuts(RouteTag(idx + k), |routes[k].outs|))
    decreases k
  {
    hide Effective, RouteTag;
    if k > 0 {
      FaultIsFirst(routes[1..], idx + 1, k - 1);
    }
  }
}
