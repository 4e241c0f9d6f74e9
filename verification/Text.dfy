/** Text as the matchers treat it: ASCII case, white space, dot-separated labels. */
module Text {
  function LowerChar(c: char): char {
    if 'A' <= c <= 'Z' then ((c as int) - ('A' as int) + ('a' as int)) as char else c
  }

  /** ASCII lower case. */
  function Lower(s: string): (r: string)
    ensures |r| == |s| && forall i :: 0 <= i < |s| ==> r[i] == LowerChar(s[i])
  {
    seq(|s|, i requires 0 <= i < |s| => LowerChar(s[i]))
  }

  lemma LowerIdempotent(s: string)
    ensures Lower(Lower(s)) == Lower(s)
  {
  }

  /** Lower case, letter by letter; everything else stays. */
  lemma LowerLetters(c: char)
    ensures Lower("ABCDEFGHIJKLMNOPQRSTUVWXYZ") == "abcdefghijklmnopqrstuvwxyz"
    ensures !('A' <= c <= 'Z') ==> LowerChar(c) == c
  {
  }

  /** Unicode's White_Space property. */
  predicate IsWhite(c: char) {
    || '\U{9}' <= c <= '\U{D}' || c == ' ' || c == '\U{85}' || c == '\U{A0}' || c == '\U{1680}'
    || '\U{2000}' <= c <= '\U{200A}' || c == '\U{2028}' || c == '\U{2029}' || c == '\U{202F}' || c == '\U{205F}'
    || c == '\U{3000}'
  }

  /** The white space characters, one by one. */
  lemma WhiteSpace(c: char)
    ensures IsWhite(c) <==>
              c as int in {0x09, 0x0A, 0x0B, 0x0C, 0x0D, 0x20, 0x85, 0xA0, 0x1680, 0x2000, 0x2001, 0x2002, 0x2003,
                           0x2004, 0x2005, 0x2006, 0x2007, 0x2008, 0x2009, 0x200A, 0x2028, 0x2029, 0x202F, 0x205F,
                           0x3000}
  {
  }

  /** Nothing to trim. */
  predicate Tight(s: string) { s == "" || (!IsWhite(s[0]) && !IsWhite(s[|s| - 1])) }

  function TrimStart(s: string): (r: string)
    ensures r == "" || !IsWhite(r[0])
    ensures |r| <= |s| && r == s[|s| - |r|..]
  {
    if s == "" || !IsWhite(s[0]) then s else TrimStart(s[1..])
  }

  function TrimEnd(s: string): (r: string)
    ensures r == "" || !IsWhite(r[|r| - 1])
    ensures r <= s
  {
    if s == "" || !IsWhite(s[|s| - 1]) then s else TrimEnd(s[..|s| - 1])
  }

  function Trim(s: string): (r: string)
    ensures Tight(r)
    ensures Tight(s) ==> r == s
  {
    var t := TrimStart(s);
    TrimEnd(t)
  }

  /** Trimming keeps a front that neither begins nor ends with white space. */
  lemma TrimKeepsHead(head: string, name: string)
    requires head != "" && !IsWhite(head[0]) && !IsWhite(head[|head| - 1])
    ensures Trim(head + name) == head + TrimEnd(name)
  {
    var raw := head + name;
    assert raw[0] == head[0] && TrimStart(raw) == raw;
    TrimEndKeepsHead(head, name);
  }

  lemma {:induction false} TrimEndKeepsHead(head: string, name: string)
    requires head != "" && !IsWhite(head[|head| - 1])
    ensures TrimEnd(head + name) == head + TrimEnd(name)
    decreases |name|
  {
    hide IsWhite;
    var raw := head + name;
    if name == "" {
      assert raw == head;
    } else {
      assert raw[|raw| - 1] == name[|name| - 1];
      if IsWhite(name[|name| - 1]) {
        TrimEndKeepsHead(head, name[..|name| - 1]);
        assert raw[..|raw| - 1] == head + name[..|name| - 1];
      }
    }
  }

  lemma {:induction false} TrimAfterTrimEnd(s: string)
    ensures Trim(TrimEnd(s)) == Trim(s)
    decreases |s|
  {
    hide IsWhite, Trim;
    if s != "" && IsWhite(s[|s| - 1]) {
      var front := s[..|s| - 1];
      TrimAfterTrimEnd(front);
      TrimDropsLast(front, s[|s| - 1]);
      assert s == front + [s[|s| - 1]];
    }
  }

  lemma {:induction false} TrimDropsLast(s: string, c: char)
    requires IsWhite(c)
    ensures Trim(s + [c]) == Trim(s)
    decreases |s|
  {
    hide IsWhite, Trim;
    if s == "" {
      TrimWhite(c);
      assert s + [c] == [c];
    } else if IsWhite(s[0]) {
      TrimDropsLast(s[1..], c);
      TrimDropsFirst(s);
      TrimDropsFirst(s + [c]);
      assert (s + [c])[1..] == s[1..] + [c];
    } else {
      TrimBehind(s, c);
    }
  }

  lemma {:induction false} TrimWhite(c: char)
    requires IsWhite(c)
    ensures Trim([c]) == Trim("")
  {
    hide IsWhite;
    assert [c][1..] == "";
  }

  lemma {:induction false} TrimDropsFirst(s: string)
    requires s != "" && IsWhite(s[0])
    ensures Trim(s) == Trim(s[1..])
  {
    hide IsWhite, TrimEnd;
  }

  lemma {:induction false} TrimBehind(s: string, c: char)
    requires s != "" && !IsWhite(s[0]) && IsWhite(c)
    ensures Trim(s + [c]) == Trim(s)
  {
    hide IsWhite;
    var raw := s + [c];
    assert TrimStart(raw) == raw && TrimStart(s) == s;
    assert raw[|raw| - 1] == c && raw[..|raw| - 1] == s;
  }

  // ---- labels ----

  /** A character in front of labels: a dot opens a new one, any other joins the first. */
  function Prepend(c: char, labels: seq<string>): (r: seq<string>)
    requires labels != []
    ensures r != []
  {
    if c == '.' then [""] + labels else [[c] + labels[0]] + labels[1..]
  }

  /** The labels of a domain: what stands between its dots. */
  function Labels(s: string): (r: seq<string>)
    ensures r != []
  {
    if s == "" then [""] else Prepend(s[0], Labels(s[1..]))
  }

  /** Labels put back together. */
  function Dotted(labels: seq<string>): string {
    if labels == [] then "" else if |labels| == 1 then labels[0] else labels[0] + "." + Dotted(labels[1..])
  }

  lemma DottedPrepend(c: char, labels: seq<string>)
    requires labels != []
    ensures Dotted(Prepend(c, labels)) == [c] + Dotted(labels)
  {
    var r := Prepend(c, labels);
    if c == '.' {
      assert r[1..] == labels;
    } else if |labels| > 1 {
      assert r[1..] == labels[1..];
    }
  }

  lemma {:induction false} DottedLabels(s: string)
    ensures Dotted(Labels(s)) == s
  {
    if s != "" {
      DottedLabels(s[1..]);
      DottedPrepend(s[0], Labels(s[1..]));
    }
  }

  lemma PrependAppend(c: char, a: seq<string>, b: seq<string>)
    requires a != []
    ensures Prepend(c, a + b) == Prepend(c, a) + b
  {
    assert (a + b)[1..] == a[1..] + b;
  }

  lemma {:induction false} LabelsAcrossDot(p: string, s: string)
    ensures Labels(p + "." + s) == Labels(p) + Labels(s)
  {
    hide Prepend;
    var whole := p + "." + s;
    if p == "" {
      assert whole[0] == '.' && whole[1..] == s;
      DotOpens(Labels(s));
    } else {
      LabelsAcrossDot(p[1..], s);
      assert whole[1..] == p[1..] + "." + s && whole[0] == p[0];
      PrependAppend(p[0], Labels(p[1..]), Labels(s));
    }
  }

  lemma DotOpens(labels: seq<string>)
    requires labels != []
    ensures Prepend('.', labels) == [""] + labels
  {
  }

  lemma {:induction false} DottedAcross(a: seq<string>, b: seq<string>)
    requires a != [] && b != []
    ensures Dotted(a + b) == Dotted(a) + "." + Dotted(b)
  {
    assert (a + b)[1..] == a[1..] + b;
    if |a| > 1 {
      DottedAcross(a[1..], b);
    } else {
      assert a[1..] + b == b;
    }
  }

  /** `d` is under `suffix`: the labels of one end with the labels of the other. */
  predicate Under(d: string, suffix: string) {
    var (all, tail) := (Labels(d), Labels(suffix));
    |tail| <= |all| && all[|all| - |tail|..] == tail
  }

  /** Being under a suffix is ending in it, whole or right after a dot. */
  lemma UnderMeans(d: string, suffix: string)
    ensures Under(d, suffix) <==>
              d == suffix || (|d| > |suffix| && d[|d| - |suffix| - 1] == '.' && d[|d| - |suffix|..] == suffix)
  {
    var i := |d| - |suffix|;
    if i >= 1 && d[i - 1] == '.' && d[i..] == suffix {
      assert d == d[..i - 1] + "." + suffix;
      LabelsAcrossDot(d[..i - 1], suffix);
    }
    if Under(d, suffix) {
      var (all, tail) := (Labels(d), Labels(suffix));
      DottedLabels(d);
      DottedLabels(suffix);
      var head := all[..|all| - |tail|];
      assert all == head + tail;
      if head != [] {
        DottedAcross(head, tail);
      } else {
        assert all == tail;
      }
    }
  }
}
