/** The egress configuration language: normalised, compiled to outbounds and a route table, and its meaning. */
module Egress {
  import opened Common
  import opened Decimal
  import opened Text
  import Route

  datatype OutSpec =
    | Direct
    | Block
    | Shadowsocks(server: string, port: U16, password: string, cipher: string)
    | Socks(server: string, port: U16, username: string, socksPassword: string)

  datatype RouteBlock = RouteBlock(rules: seq<string>, outs: seq<OutSpec>)

  datatype Config = Config(enable: bool, routes: seq<RouteBlock>)

  datatype RuleExpr =
    | SuffixExpr(name: string)
    | FullExpr(name: string)
    | KeywordExpr(name: string)
    | GeoSiteExpr(name: string)
    | GeoIpExpr(name: string)
    | CatchAll

  datatype CipherKind = Aes128Gcm | Aes256Gcm | ChaCha20Poly1305 | XChaCha20Poly1305

  datatype Outbound =
    | Freedom
    | Blackhole
    | SsOutbound(server: string, port: U16, kind: CipherKind, password: string)
    | SocksOutbound(server: string, port: U16, username: string, socksPassword: string)

  datatype Error = WrongOuts(tag: string, count: nat) | UnknownCipher

  datatype NamedRoute = NamedRoute(tag: string, rules: seq<RuleExpr>)

  datatype NamedOutbound = NamedOutbound(tag: string, spec: OutSpec)

  datatype Normalized = Normalized(defaultTag: string, routes: seq<NamedRoute>, outbounds: seq<NamedOutbound>)

  datatype Compiled = Compiled(freedomTag: Option<string>, table: Route.Table, outbounds: seq<(string, Outbound)>)

  const DEFAULT_TAG := "default-direct"

  // ---- rule expressions ----

  function Nonempty(s: string): (r: Option<string>)
    ensures r.Some? <==> Trim(s) != ""
    ensures r.Some? ==> r.value == Trim(s)
  {
    var trimmed := Trim(s);
    if trimmed == "" then None else Some(trimmed)
  }

  /** The words that may open a rule. */
  datatype Word = DomainWord | SuffixWord | FullWord | KeywordWord | GeoSiteWord | GeoIpWord

  function Spelled(w: Word): (r: string)
    ensures r != "" && !IsWhite(r[0]) && r[0] != '#' && r[0] != '*' && !IsWhite(r[|r| - 1])
  {
    match w
    case DomainWord => "domain:"
    case SuffixWord => "suffix:"
    case FullWord => "full:"
    case KeywordWord => "keyword:"
    case GeoSiteWord => "geosite:"
    case GeoIpWord => "geoip:"
  }

  /** The words in the order they are looked for. */
  const WORDS: seq<Word> := [DomainWord, SuffixWord, FullWord, KeywordWord, GeoSiteWord, GeoIpWord]

  function FirstWord(s: string, words: seq<Word>): (r: Option<Word>)
    ensures r.Some? ==> Spelled(r.value) <= s
    ensures r.None? ==> forall w :: w in words ==> !(Spelled(w) <= s)
  {
    if words == [] then None else if Spelled(words[0]) <= s then Some(words[0]) else FirstWord(s, words[1..])
  }

  function Make(w: Word, name: string): RuleExpr {
    match w
    case DomainWord => SuffixExpr(name)
    case SuffixWord => SuffixExpr(name)
    case FullWord => FullExpr(name)
    case KeywordWord => KeywordExpr(name)
    case GeoSiteWord => GeoSiteExpr(name)
    case GeoIpWord => GeoIpExpr(name)
  }

  function ParseRule(raw: string): Option<RuleExpr> {
    var s := Trim(raw);
    if s == "" || s[0] == '#' then None
    else if s == "*" then Some(CatchAll)
    else
      var w := FirstWord(s, WORDS);
      var name := Nonempty(if w.Some? then s[|Spelled(w.value)|..] else s);
      if name.None? then None else Some(Make(if w.Some? then w.value else DomainWord, name.value))
  }

  /** The word an expression is written with. */
  function WordOf(e: RuleExpr): Word
    requires !e.CatchAll?
  {
    match e
    case SuffixExpr(_) => DomainWord
    case FullExpr(_) => FullWord
    case KeywordExpr(_) => KeywordWord
    case GeoSiteExpr(_) => GeoSiteWord
    case GeoIpExpr(_) => GeoIpWord
  }

  /** An expression as one writes it. */
  function RenderRule(e: RuleExpr): string {
    if e.CatchAll? then "*" else Spelled(WordOf(e)) + e.name
  }

  /** Names the parser can produce. */
  predicate Nameable(e: RuleExpr) { e.CatchAll? || (e.name != "" && Tight(e.name)) }

  /** No text begins with two different words. */
  lemma WordsExclude(v: Word, w: Word, s: string)
    requires Spelled(v) <= s && Spelled(w) <= s
    ensures v == w
  {
    assert s[0] == Spelled(v)[0] && s[0] == Spelled(w)[0] && s[3] == Spelled(v)[3] && s[3] == Spelled(w)[3];
  }

  lemma ParsedIsNameable(raw: string)
    ensures var e := ParseRule(raw); e.Some? ==> Nameable(e.value)
  {
    hide Trim, Spelled, FirstWord;
  }

  lemma NamedRuleParses(w: Word, name: string)
    requires name != "" && Tight(name)
    ensures ParseRule(Spelled(w) + name) == Some(Make(w, name))
  {
    hide Spelled, FirstWord, Trim;
    var s := Spelled(w) + name;
    assert s[0] == Spelled(w)[0] && s[|s| - 1] == name[|name| - 1];
    assert Trim(s) == s;
    assert w in WORDS;
    var v := FirstWord(s, WORDS);
    assert Spelled(w) <= s;
    WordsExclude(v.value, w, s);
    assert s[|Spelled(w)|..] == name;
    assert Trim(name) == name;
  }

  /** Rendering and parsing are inverse exactly on expressions with a trimmed, nonempty name. */
  lemma RuleRoundTrip(e: RuleExpr)
    ensures ParseRule(RenderRule(e)) == Some(e) <==> Nameable(e)
  {
    hide Spelled, FirstWord, Trim;
    ParsedIsNameable(RenderRule(e));
    if e.CatchAll? {
      assert Trim("*") == "*";
    } else if Nameable(e) {
      NamedRuleParses(WordOf(e), e.name);
    }
  }

  /** "suffix:" and "domain:" lines mean the same, whatever the name. */
  lemma SuffixMeansDomain(name: string)
    ensures ParseRule("suffix:" + name) == ParseRule("domain:" + name)
  {
    WordLine(SuffixWord, name);
    WordLine(DomainWord, name);
  }

  /** Any line that begins with a word is about the trimmed rest of it. */
  lemma WordLine(w: Word, name: string)
    ensures ParseRule(Spelled(w) + name)
            == if Trim(name) == "" then None else Some(Make(w, Trim(name)))
  {
    hide FirstWord, Trim;
    var raw := Spelled(w) + name;
    var s := Trim(raw);
    TrimKeepsHead(Spelled(w), name);
    var v := FirstWord(s, WORDS);
    assert w in WORDS && Spelled(w) <= s;
    WordsExclude(v.value, w, s);
    assert s[|Spelled(w)|..] == TrimEnd(name);
    TrimAfterTrimEnd(name);
  }

  /** What the lines of a block mean, word by word. */
  lemma RuleLines(name: string)
    requires Trim(name) != ""
    ensures ParseRule("domain:" + name) == Some(SuffixExpr(Trim(name)))
    ensures ParseRule("suffix:" + name) == Some(SuffixExpr(Trim(name)))
    ensures ParseRule("full:" + name) == Some(FullExpr(Trim(name)))
    ensures ParseRule("keyword:" + name) == Some(KeywordExpr(Trim(name)))
    ensures ParseRule("geosite:" + name) == Some(GeoSiteExpr(Trim(name)))
    ensures ParseRule("geoip:" + name) == Some(GeoIpExpr(Trim(name)))
  {
    hide ParseRule, Trim;
    WordLine(DomainWord, name);
    WordLine(SuffixWord, name);
    WordLine(FullWord, name);
    WordLine(KeywordWord, name);
    WordLine(GeoSiteWord, name);
    WordLine(GeoIpWord, name);
  }

  /** A line that begins with a hash is a comment, a blank one is nothing, and a plain name is a suffix. */
  lemma PlainLines(name: string)
    ensures ParseRule("#" + name) == None && (Trim(name) == "" ==> ParseRule(name) == None)
    ensures (&& Tight(name) && name != "" && name != "*" && name[0] != '#'
             && forall w: Word :: !(Spelled(w) <= name)) ==>
              ParseRule(name) == Some(SuffixExpr(name))
  {
    hide FirstWord, Trim, Spelled;
    TrimKeepsHead("#", name);
    assert Trim("#" + name)[0] == '#';
    if Tight(name) && name != "" && forall w: Word :: !(Spelled(w) <= name) {
      assert Trim(name) == name && FirstWord(name, WORDS).None?;
    }
  }

  /** White space around a rule changes nothing. */
  lemma RuleTrimmed(raw: string)
    ensures ParseRule(raw) == ParseRule(Trim(raw))
  {
    hide Spelled, FirstWord, Trim;
    assert Trim(Trim(raw)) == Trim(raw);
  }

  /** The expressions of a block that parse, in order. */
  function Effective(raws: seq<string>): seq<RuleExpr> {
    if raws == [] then []
    else
      var e := ParseRule(raws[0]);
      (if e.Some? then [e.value] else []) + Effective(raws[1..])
  }

  // ---- the meaning of a configuration ----

  /** When an expression speaks of a flow: `full` as a suffix, `keyword` never. */
  predicate Speaks(e: RuleExpr, q: Route.Query, geo: Route.Geo) {
    match e
    case SuffixExpr(n) => var d := Route.QueryDomain(q); d.Some? && Under(d.value, Lower(n))
    case FullExpr(n) => var d := Route.QueryDomain(q); d.Some? && Under(d.value, Lower(n))
    case KeywordExpr(_) => false
    case GeoSiteExpr(n) => var d := Route.QueryDomain(q); d.Some? && geo.site(n, d.value)
    case GeoIpExpr(n) => q.target.Numeric? && geo.ip(n, q.target.ip)
    case CatchAll => true
  }

  /** Some line of the block parses and speaks of the flow. */
  predicate BlockApplies(block: RouteBlock, q: Route.Query, geo: Route.Geo) {
    exists i :: 0 <= i < |block.rules| && LineApplies(block.rules[i], q, geo)
  }

  predicate LineApplies(raw: string, q: Route.Query, geo: Route.Geo) {
    var e := ParseRule(raw);
    e.Some? && Speaks(e.value, q, geo)
  }

  /** What a configuration asks for: the outbounds of the first applicable block, else direct. */
  function Interpreted(routes: seq<RouteBlock>, q: Route.Query, geo: Route.Geo): seq<OutSpec> {
    if routes == [] then [Direct]
    else if BlockApplies(routes[0], q, geo) then routes[0].outs
    else Interpreted(routes[1..], q, geo)
  }

  function Interpret(cfg: Config, q: Route.Query, geo: Route.Geo): seq<OutSpec> {
    if cfg.enable then Interpreted(cfg.routes, q, geo) else [Direct]
  }

  // ---- normalising ----

  function RouteTag(idx: nat): string { "route-" + Padded(idx) }

  /** A block that survives, with its position in the file. */
  datatype Kept = Kept(idx: nat, rules: seq<RuleExpr>, spec: OutSpec)

  function KeptBlocks(routes: seq<RouteBlock>, idx: nat): seq<Kept> {
    if routes == [] then []
    else
      var rules, rest := Effective(routes[0].rules), KeptBlocks(routes[1..], idx + 1);
      if rules == [] || |routes[0].outs| != 1 then rest else [Kept(idx, rules, routes[0].outs[0])] + rest
  }

  /** The first block with effective rules and not exactly one outbound. */
  function Fault(routes: seq<RouteBlock>, idx: nat): Option<Error> {
    if routes == [] then None
    else if Effective(routes[0].rules) != [] && |routes[0].outs| != 1 then
      Some(WrongOuts(RouteTag(idx), |routes[0].outs|))
    else Fault(routes[1..], idx + 1)
  }

  function RoutesOf(kept: seq<Kept>): (r: seq<NamedRoute>)
    ensures |r| == |kept|
  {
    seq(|kept|, i requires 0 <= i < |kept| => NamedRoute(RouteTag(kept[i].idx), kept[i].rules))
  }

  function OutboundsOf(kept: seq<Kept>): (r: seq<NamedOutbound>)
    ensures |r| == |kept|
  {
    seq(|kept|, i requires 0 <= i < |kept| => NamedOutbound(RouteTag(kept[i].idx), kept[i].spec))
  }

  function NormalizedSpec(cfg: Config): Result<Normalized, Error> {
    var fault := Fault(cfg.routes, 0);
    if fault.Some? then Err(fault.value)
    else
      var kept := KeptBlocks(cfg.routes, 0);
      Ok(Normalized(DEFAULT_TAG, RoutesOf(kept), OutboundsOf(kept) + [NamedOutbound(DEFAULT_TAG, Direct)]))
  }

  lemma RoutesOfSnoc(kept: seq<Kept>, k: Kept)
    ensures RoutesOf(kept + [k]) == RoutesOf(kept) + [NamedRoute(RouteTag(k.idx), k.rules)]
    ensures OutboundsOf(kept + [k]) == OutboundsOf(kept) + [NamedOutbound(RouteTag(k.idx), k.spec)]
  {
  }

  /** One block further. */
  lemma BlockStep(routes: seq<RouteBlock>, i: nat, done: seq<Kept>)
    requires i < |routes|
    requires done + KeptBlocks(routes[i..], i) == KeptBlocks(routes, 0) && Fault(routes[i..], i) == Fault(routes, 0)
    ensures var rules := Effective(routes[i].rules);
            if rules == [] then
              && done + KeptBlocks(routes[i + 1..], i + 1) == KeptBlocks(routes, 0)
              && Fault(routes[i + 1..], i + 1) == Fault(routes, 0)
            else if |routes[i].outs| != 1 then Fault(routes, 0) == Some(WrongOuts(RouteTag(i), |routes[i].outs|))
            else
              && done + [Kept(i, rules, routes[i].outs[0])] + KeptBlocks(routes[i + 1..], i + 1)
                 == KeptBlocks(routes, 0)
              && Fault(routes[i + 1..], i + 1) == Fault(routes, 0)
  {
    hide Effective, RouteTag;
    var rest, block := routes[i..], routes[i];
    assert rest[0] == block && rest[1..] == routes[i + 1..];
    var rules := Effective(block.rules);
    if rules != [] && |block.outs| == 1 {
      var k := Kept(i, rules, block.outs[0]);
      assert done + [k] + KeptBlocks(routes[i + 1..], i + 1) == done + ([k] + KeptBlocks(routes[i + 1..], i + 1));
    }
  }

  /** Appends what survives of each block, and fails on the first block without exactly one outbound. */
  method Normalize(cfg: Config) returns (r: Result<Normalized, Error>)
    ensures r == NormalizedSpec(cfg)
  {
    hide Effective, RouteTag, KeptBlocks, Fault, RoutesOf, OutboundsOf;
    var routes: seq<NamedRoute>, outbounds: seq<NamedOutbound> := [], [];
    ghost var done: seq<Kept> := [];
    assert cfg.routes[0..] == cfg.routes;
    for i := 0 to |cfg.routes|
      invariant routes == RoutesOf(done) && outbounds == OutboundsOf(done)
      invariant done + KeptBlocks(cfg.routes[i..], i) == KeptBlocks(cfg.routes, 0)
      invariant Fault(cfg.routes[i..], i) == Fault(cfg.routes, 0)
    {
      var block, tag := cfg.routes[i], RouteTag(i);
      BlockStep(cfg.routes, i, done);
      var rules := FilterRules(block.rules);
      if rules != [] {
        if |block.outs| != 1 {
          return Err(WrongOuts(tag, |block.outs|));
        }
        RoutesOfSnoc(done, Kept(i, rules, block.outs[0]));
        routes := routes + [NamedRoute(tag, rules)];
        outbounds := outbounds + [NamedOutbound(tag, block.outs[0])];
        done := done + [Kept(i, rules, block.outs[0])];
      }
    }
    NothingLeft(cfg.routes, |cfg.routes|, done);
    outbounds := outbounds + [NamedOutbound(DEFAULT_TAG, Direct)];
    return Ok(Normalized(DEFAULT_TAG, routes, outbounds));
  }

  lemma NothingLeft(routes: seq<RouteBlock>, i: nat, done: seq<Kept>)
    requires i == |routes|
    ensures done + KeptBlocks(routes[i..], i) == done && Fault(routes[i..], i) == None
  {
  }

  method FilterRules(raws: seq<string>) returns (rules: seq<RuleExpr>)
    ensures rules == Effective(raws)
  {
    hide ParseRule;
    rules := [];
    for i := 0 to |raws|
      invariant rules + Effective(raws[i..]) == Effective(raws)
    {
      assert raws[i..][1..] == raws[i + 1..];
      var e := ParseRule(raws[i]);
      if e.Some? {
        rules := rules + [e.value];
      }
    }
  }

  // ---- compiling ----

  function MethodKind(name: string): Option<CipherKind> {
    if name == "aes-128-gcm" || name == "AEAD_AES_128_GCM" then Some(Aes128Gcm)
    else if name == "aes-256-gcm" || name == "AEAD_AES_256_GCM" then Some(Aes256Gcm)
    else if name == "chacha20-ietf-poly1305" || name == "chacha20-poly1305" || name == "AEAD_CHACHA20_POLY1305" then
      Some(ChaCha20Poly1305)
    else if name == "xchacha20-ietf-poly1305" || name == "xchacha20-poly1305" then Some(XChaCha20Poly1305)
    else None
  }

  function CompileOutbound(spec: OutSpec): Result<Outbound, Error> {
    match spec
    case Direct => Ok(Freedom)
    case Block => Ok(Blackhole)
    case Shadowsocks(server, port, password, cipher) =>
      var kind := MethodKind(cipher);
      if kind.None? then Err(UnknownCipher) else Ok(SsOutbound(server, port, kind.value, password))
    case Socks(server, port, username, password) => Ok(SocksOutbound(server, port, username, password))
  }

  function ConditionOf(e: RuleExpr): Option<Route.Condition> {
    match e
    case SuffixExpr(n) => Some(Route.DomainSuffix(Lower(n)))
    case FullExpr(n) => Some(Route.DomainSuffix(Lower(n)))
    case KeywordExpr(_) => None
    case GeoSiteExpr(n) => Some(Route.GeoSite(n))
    case GeoIpExpr(n) => Some(Route.GeoIp(n))
    case CatchAll => Some(Route.Any)
  }

  function Conditions(exprs: seq<RuleExpr>): seq<Route.Condition> {
    if exprs == [] then []
    else
      var c := ConditionOf(exprs[0]);
      (if c.Some? then [c.value] else []) + Conditions(exprs[1..])
  }

  function RulesOf(routes: seq<NamedRoute>): seq<Route.Rule> {
    if routes == [] then []
    else
      var conds := Conditions(routes[0].rules);
      (if conds == [] then [] else [Route.Rule(conds, [routes[0].tag])]) + RulesOf(routes[1..])
  }

  /** Every outbound compiled, or the first failure. */
  function AllOutbounds(named: seq<NamedOutbound>): Result<seq<(string, Outbound)>, Error> {
    if named == [] then Ok([])
    else
      var last := named[|named| - 1];
      match AllOutbounds(named[..|named| - 1])
      case Err(e) => Err(e)
      case Ok(done) =>
        match CompileOutbound(last.spec)
        case Err(e) => Err(e)
        case Ok(o) => Ok(done + [(last.tag, o)])
  }

  function CompiledSpec(cfg: Config): Result<Compiled, Error> {
    if !cfg.enable then Ok(Compiled(Some(DEFAULT_TAG), Route.Table([], Route.Freedom), [(DEFAULT_TAG, Freedom)]))
    else
      match NormalizedSpec(cfg)
      case Err(e) => Err(e)
      case Ok(n) =>
        match AllOutbounds(n.outbounds)
        case Err(e) => Err(e)
        case Ok(outs) => Ok(Compiled(Some(n.defaultTag), Route.Table(RulesOf(n.routes), Route.Freedom), outs))
  }

  method RuleConditions(exprs: seq<RuleExpr>) returns (conds: seq<Route.Condition>)
    ensures conds == Conditions(exprs)
  {
    hide ConditionOf;
    conds := [];
    for i := 0 to |exprs|
      invariant conds + Conditions(exprs[i..]) == Conditions(exprs)
    {
      assert exprs[i..][1..] == exprs[i + 1..];
      var c := ConditionOf(exprs[i]);
      if c.Some? {
        conds := conds + [c.value];
      }
    }
  }

  lemma {:induction false} FailureStays(named: seq<NamedOutbound>, i: nat)
    requires i <= |named| && AllOutbounds(named[..i]).Err?
    ensures AllOutbounds(named) == AllOutbounds(named[..i])
  {
    if i == |named| {
      assert named[..i] == named;
    } else {
      var front := named[..|named| - 1];
      assert front[..i] == named[..i];
      FailureStays(front, i);
    }
  }

  method CompileNormalized(n: Normalized) returns (r: Result<Compiled, Error>)
    ensures r ==
            match AllOutbounds(n.outbounds)
            case Err(e) => Err(e)
            case Ok(outs) => Ok(Compiled(Some(n.defaultTag), Route.Table(RulesOf(n.routes), Route.Freedom), outs))
  {
    hide CompileOutbound, RulesOf;
    var outs: seq<(string, Outbound)> := [];
    for i := 0 to |n.outbounds|
      invariant AllOutbounds(n.outbounds[..i]) == Ok(outs)
    {
      var next := n.outbounds[i];
      assert n.outbounds[..i + 1][..i] == n.outbounds[..i];
      match CompileOutbound(next.spec) {
        case Err(e) =>
          FailureStays(n.outbounds, i + 1);
          return Err(e);
        case Ok(o) => outs := outs + [(next.tag, o)];
      }
    }
    assert n.outbounds[..|n.outbounds|] == n.outbounds;
    var rules := CompileRules(n.routes);
    return Ok(Compiled(Some(n.defaultTag), Route.Table(rules, Route.Freedom), outs));
  }

  method CompileRules(routes: seq<NamedRoute>) returns (rules: seq<Route.Rule>)
    ensures rules == RulesOf(routes)
  {
    hide Conditions;
    rules := [];
    for i := 0 to |routes|
      invariant rules + RulesOf(routes[i..]) == RulesOf(routes)
    {
      assert routes[i..][1..] == routes[i + 1..];
      var conds := RuleConditions(routes[i].rules);
      if conds != [] {
        rules := rules + [Route.Rule(conds, [routes[i].tag])];
      }
    }
  }

  method Compile(cfg: Config) returns (r: Result<Compiled, Error>)
    ensures r == CompiledSpec(cfg)
  {
    if !cfg.enable {
      return Ok(Compiled(Some(DEFAULT_TAG), Route.Table([], Route.Freedom), [(DEFAULT_TAG, Freedom)]));
    }
    var n := Normalize(cfg);
    match n {
      case Err(e) => return Err(e);
      case Ok(normalized) => r := CompileNormalized(normalized);
    }
  }
}
