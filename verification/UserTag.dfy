/** Traffic tags: node tag, email and uid joined by bars. */
module UserTag {
  import opened Common
  import opened Decimal

  /** Who a counter belongs to. */
  datatype Owner = Owner(uid: int, email: string)

  function BuildTag(node: string, owner: Owner): string {
    node + "|" + owner.email + "|" + FormatI32(owner.uid)
  }

  /** Position of the last bar. */
  function LastBar(s: string): (r: Option<nat>)
    ensures r.Some? ==> r.value < |s| && s[r.value] == '|' && forall i :: r.value < i < |s| ==> s[i] != '|'
    ensures r.None? ==> '|' !in s
  {
    if s == "" then None
    else if s[|s| - 1] == '|' then Some(|s| - 1)
    else
      assert s == s[..|s| - 1] + [s[|s| - 1]];
      LastBar(s[..|s| - 1])
  }

  /** Strips the node's own prefix, then splits at the last bar. */
  function ParseTag(node: string, tag: string): Option<Owner> {
    var prefix := node + "|";
    if !(prefix <= tag) then None
    else
      var rest := tag[|prefix|..];
      match LastBar(rest)
      case None => None
      case Some(i) =>
        match ParseI32(rest[i + 1..])
        case None => None
        case Some(uid) => Some(Owner(uid, rest[..i]))
  }

  lemma FormatHasNoBar(x: int)
    ensures '|' !in FormatI32(x)
  {
    var d := Digits(if x < 0 then -x else x);
    assert forall i :: 0 <= i < |d| ==> IsDigit(d[i]);
  }

  /** A node reads its own tags back to the same owner, whatever the email. */
  lemma OwnTagParses(node: string, owner: Owner)
    requires I32_MIN <= owner.uid <= I32_MAX
    ensures ParseTag(node, BuildTag(node, owner)) == Some(owner)
  {
    hide FormatI32, ParseI32;
    var uid := FormatI32(owner.uid);
    var rest := owner.email + "|" + uid;
    var tag := BuildTag(node, owner);
    assert tag == node + "|" + rest;
    assert tag[|node| + 1..] == rest;
    FormatHasNoBar(owner.uid);
    var i := |owner.email|;
    assert rest[i] == '|' && rest[i + 1..] == uid && rest[..i] == owner.email;
    assert forall j :: i < j < |rest| ==> rest[j] == uid[j - i - 1];
    assert LastBar(rest) == Some(i);
    I32RoundTrip(owner.uid);
  }

  /** What any node reads in any other's tag, whatever bars they hold: exactly a node whose tag and a bar begin
      the other's tag, bar and email claims it, with what is left of them as the email. */
  lemma TagReading(node: string, other: string, owner: Owner)
    requires I32_MIN <= owner.uid <= I32_MAX
    ensures ParseTag(node, BuildTag(other, owner))
            == if node + "|" <= other + "|" + owner.email
               then Some(Owner(owner.uid, (other + "|" + owner.email)[|node| + 1..]))
               else None
  {
    var front := other + "|" + owner.email;
    var uid := FormatI32(owner.uid);
    var tag := BuildTag(other, owner);
    assert tag == front + "|" + uid;
    FormatHasNoBar(owner.uid);
    if node + "|" <= front {
      var email := front[|node| + 1..];
      assert tag == BuildTag(node, Owner(owner.uid, email));
      OwnTagParses(node, Owner(owner.uid, email));
    } else if node + "|" <= tag {
      var prefix := node + "|";
      assert |prefix| > |front|;
      assert tag[|node|] == prefix[|node|] == '|';
      assert |node| == |front|;
      assert tag[|prefix|..] == uid;
      assert LastBar(uid).None?;
    }
  }

  /** A node reads another's tag as the owner's, or refuses it, unless the other's tag and email spell its own. */
  lemma TagAttribution(node: string, other: string, owner: Owner)
    requires I32_MIN <= owner.uid <= I32_MAX
    ensures ParseTag(node, BuildTag(other, owner)) == (if node == other then Some(owner) else None)
            <==> node == other || !(node + "|" <= other + "|" + owner.email)
  {
    TagReading(node, other, owner);
    if node == other {
      OwnTagParses(node, owner);
    }
  }

  /** One node tag, with its bar, begins the other with its bar. */
  predicate Nested(a: string, b: string) { a + "|" <= b + "|" || b + "|" <= a + "|" }

  /** A node refuses every tag of another exactly when their tags are not nested. */
  lemma NodesKeepApart(node: string, other: string)
    ensures (forall owner: Owner :: I32_MIN <= owner.uid <= I32_MAX ==> ParseTag(node, BuildTag(other, owner)) == None)
            <==> !Nested(node, other)
  {
    var a, b := node + "|", other + "|";
    if a <= b {
      TagReading(node, other, Owner(0, ""));
      assert b + "" == b;
    } else if b <= a {
      var email := a[|b|..];
      assert b + email == a;
      TagReading(node, other, Owner(0, email));
    } else {
      forall owner: Owner | I32_MIN <= owner.uid <= I32_MAX ensures ParseTag(node, BuildTag(other, owner)) == None {
        TagReading(node, other, owner);
        if a <= b + owner.email {
          PrefixesNest(a, b, owner.email);
          assert false;
        }
      }
    }
  }

  lemma PrefixesNest(a: string, b: string, rest: string)
    requires a <= b + rest
    ensures a <= b || b <= a
  {
    if |a| <= |b| {
      assert a == (b + rest)[..|a|] == b[..|a|];
    } else {
      assert b == (b + rest)[..|b|] == a[..|b|];
    }
  }

  /** Bar-free tags are nested only when equal. */
  lemma BarFreeApart(a: string, b: string)
    requires '|' !in a && '|' !in b && Nested(a, b)
    ensures a == b
  {
    var x, y := a + "|", b + "|";
    assert x[|a|] == '|' && y[|b|] == '|';
    assert forall k :: 0 <= k < |a| ==> x[k] == a[k];
    assert forall k :: 0 <= k < |b| ==> y[k] == b[k];
    assert |a| == |b|;
    assert a == x[..|a|] && b == y[..|b|];
  }

  // ---- node tags ----

  datatype NodeType = V2ray | Vmess | Vless | Trojan | ShadowsocksNode | ShadowsocksPlugin | Dokodemo

  function NodeTypeName(t: NodeType): string {
    match t
    case V2ray => "V2ray"
    case Vmess => "Vmess"
    case Vless => "Vless"
    case Trojan => "Trojan"
    case ShadowsocksNode => "Shadowsocks"
    case ShadowsocksPlugin => "Shadowsocks-Plugin"
    case Dokodemo => "dokodemo-door"
  }

  function BuildNodeTag(t: NodeType, listenIp: string, port: nat): string {
    NodeTypeName(t) + "_" + listenIp + "_" + Digits(port)
  }

  /** A node tag is bar-free exactly when the configured listen address is. */
  lemma NodeTagBarFree(t: NodeType, listenIp: string, port: nat)
    ensures '|' in BuildNodeTag(t, listenIp, port) <==> '|' in listenIp
  {
    var (name, digits) := (NodeTypeName(t), Digits(port));
    assert forall i :: 0 <= i < |digits| ==> IsDigit(digits[i]);
    assert '|' !in name && '|' !in digits;
    assert BuildNodeTag(t, listenIp, port) == name + ("_" + (listenIp + ("_" + digits)));
  }

  /** With a bar in a listen address, one node claims another's bytes under a wrong email. */
  lemma BarInListenAddressConfuses(email: string)
    ensures var node := BuildNodeTag(Vmess, "::1", 80);
            var other := BuildNodeTag(Vmess, "::1_80|x", 81);
            && other != node
            && ParseTag(node, BuildTag(other, Owner(1, email))) == Some(Owner(1, "x_81|" + email))
  {
    var node, other := BuildNodeTag(Vmess, "::1", 80), BuildNodeTag(Vmess, "::1_80|x", 81);
    assert Digits(8) == "8" && Digits(80) == "80" && Digits(81) == "81";
    assert node == "Vmess_::1_80" && other == node + "|" + "x_81";
    var front := other + "|" + email;
    assert front == node + "|" + ("x_81|" + email);
    assert node + "|" <= front && front[|node| + 1..] == "x_81|" + email;
    TagReading(node, other, Owner(1, email));
  }

  /** The names of the node types. */
  lemma NodeTypeNames()
    ensures NodeTypeName(V2ray) == "V2ray" && NodeTypeName(Vmess) == "Vmess" && NodeTypeName(Vless) == "Vless"
    ensures NodeTypeName(Trojan) == "Trojan" && NodeTypeName(ShadowsocksNode) == "Shadowsocks"
    ensures NodeTypeName(ShadowsocksPlugin) == "Shadowsocks-Plugin" && NodeTypeName(Dokodemo) == "dokodemo-door"
  {
  }
}
