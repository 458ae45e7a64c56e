/** Request paths kept in two forms, decoded and escaped: percent-encoding of section 2.1 of RFC 3986. */
module UrlPath {
  import opened Wrappers

  type Byte = b: int | 0 <= b < 256
  type Bytes = seq<Byte>

  const PERCENT: Byte := 37
  const SLASH: Byte := 47

  /** Which bytes the URL library leaves as they are, and which it accepts in a path it did not escape itself. */
  datatype Escaping = Escaping(safe: set<Byte>, allowed: set<Byte>)

  predicate Sound(x: Escaping) {
    PERCENT !in x.safe && SLASH in x.safe && x.safe <= x.allowed && PERCENT in x.allowed
    && forall d :: 0 <= d < 16 ==> HexDigit(d) in x.allowed
  }

  function HexDigit(d: int): Byte
    requires 0 <= d < 16
  {
    if d < 10 then 48 + d else 55 + d
  }

  function HexValue(c: Byte): Option<int> {
    if 48 <= c <= 57 then Some(c - 48) else if 65 <= c <= 70 then Some(c - 55) else if 97 <= c <= 102 then Some(c - 87) else None
  }

  function Prepend(b: Byte, rest: Option<Bytes>): Option<Bytes> {
    if rest.Some? then Some([b] + rest.value) else None
  }

  predicate Escape(raw: Bytes) {
    |raw| >= 3 && raw[0] == PERCENT && HexValue(raw[1]).Some? && HexValue(raw[2]).Some?
  }

  function Decode(raw: Bytes): Option<Bytes> {
    if raw == [] then Some([])
    else if raw[0] != PERCENT then Prepend(raw[0], Decode(raw[1..]))
    else if Escape(raw) then Prepend(16 * HexValue(raw[1]).value + HexValue(raw[2]).value, Decode(raw[3..]))
    else None
  }

  /** How many escaped bytes stand for the first decoded one. */
  function Width(raw: Bytes): nat
    requires raw != []
  {
    if raw[0] == PERCENT then 3 else 1
  }

  function Encode(x: Escaping, p: Bytes): Bytes {
    if p == [] then []
    else (if p[0] in x.safe then [p[0]] else [PERCENT, HexDigit(p[0] / 16), HexDigit(p[0] % 16)]) + Encode(x, p[1..])
  }

  predicate Plain(x: Escaping, raw: Bytes) { forall i :: 0 <= i < |raw| ==> raw[i] in x.allowed }

  datatype Path = Path(path: Bytes, rawPath: Bytes)

  /** The escaped form: the stored one if it is acceptable and decodes to the path, a fresh encoding otherwise. */
  function EscapedPath(x: Escaping, u: Path): Bytes {
    if u.rawPath != [] && Plain(x, u.rawPath) && Decode(u.rawPath) == Some(u.path) then u.rawPath else Encode(x, u.path)
  }

  /** The two forms agree, and the escaped one will be sent as it is. */
  predicate InSync(x: Escaping, u: Path) {
    u.rawPath != [] ==> Plain(x, u.rawPath) && Decode(u.rawPath) == Some(u.path)
  }

  // ---------------------------------------------------------------- encoding and decoding

  lemma {:induction false} EncodeRoundTrip(x: Escaping, p: Bytes)
    requires Sound(x)
    ensures Decode(Encode(x, p)) == Some(p) && Plain(x, Encode(x, p))
  {
    if p != [] {
      EncodeRoundTrip(x, p[1..]);
      var rest := Encode(x, p[1..]);
      if p[0] in x.safe {
        assert ([p[0]] + rest)[1..] == rest;
      } else {
        var e := [PERCENT, HexDigit(p[0] / 16), HexDigit(p[0] % 16)] + rest;
        assert e[3..] == rest;
        assert HexValue(HexDigit(p[0] / 16)) == Some(p[0] / 16) && HexValue(HexDigit(p[0] % 16)) == Some(p[0] % 16);
        assert 16 * (p[0] / 16) + p[0] % 16 == p[0];
      }
      assert p == [p[0]] + p[1..];
    }
  }

  lemma {:induction false} PrependConcat(b: Byte, rest: Bytes, more: Bytes)
    ensures [b] + (rest + more) == ([b] + rest) + more
  {
  }

  lemma {:induction false} DecodeConcat(a: Bytes, b: Bytes)
    requires Decode(a).Some?
    ensures Decode(a + b) == if Decode(b).Some? then Some(Decode(a).value + Decode(b).value) else None
  {
    if a == [] {
      assert a + b == b;
      if Decode(b).Some? { assert Decode(a).value + Decode(b).value == Decode(b).value; }
    } else {
      var w := Width(a);
      DecodeConcat(a[w..], b);
      assert (a + b)[w..] == a[w..] + b;
      if Decode(b).Some? { PrependConcat(Decode(a).value[0], Decode(a[w..]).value, Decode(b).value); }
    }
  }

  lemma {:induction false} EscapedPathInSync(x: Escaping, u: Path)
    requires Sound(x)
    ensures Decode(EscapedPath(x, u)) == Some(u.path) && Plain(x, EscapedPath(x, u))
  {
    hide Plain, Decode, Encode;
    EncodeRoundTrip(x, u.path);
  }

  // ---------------------------------------------------------------- dropping decoded bytes from the escaped form

  /** The escaped form without its first `n` decoded bytes. */
  function Suffix(raw: Bytes, n: nat): Bytes
    requires Decode(raw).Some?
  {
    if n == 0 || raw == [] then raw else Suffix(raw[Width(raw)..], n - 1)
  }

  lemma {:induction false} DecodeStep(raw: Bytes)
    requires raw != [] && Decode(raw).Some?
    ensures Width(raw) <= |raw| && Decode(raw[Width(raw)..]).Some? && Decode(raw).value != []
    ensures Decode(raw).value[1..] == Decode(raw[Width(raw)..]).value
    ensures forall k :: Width(raw) <= k <= |raw| && Decode(raw[Width(raw)..k]).Some? ==>
              Decode(raw[..k]) == Some([Decode(raw).value[0]] + Decode(raw[Width(raw)..k]).value)
  {
    var w := Width(raw);
    forall k | w <= k <= |raw| && Decode(raw[w..k]).Some?
      ensures Decode(raw[..k]) == Some([Decode(raw).value[0]] + Decode(raw[w..k]).value)
    {
      assert raw[..k][w..] == raw[w..k];
    }
  }

  /** Cutting the escaped form agrees with cutting the decoded one, and never cuts into an escape. */
  lemma {:induction false} SuffixDecodes(raw: Bytes, n: nat)
    requires Decode(raw).Some? && n <= |Decode(raw).value|
    ensures Decode(Suffix(raw, n)) == Some(Decode(raw).value[n..])
    ensures |Suffix(raw, n)| <= |raw| && raw[|raw| - |Suffix(raw, n)|..] == Suffix(raw, n)
    ensures Decode(raw[..|raw| - |Suffix(raw, n)|]) == Some(Decode(raw).value[..n])
  {
    hide Decode;
    if n == 0 || raw == [] {
      assert raw[..0] == [] && Decode([]) == Some([]) by { DecodeEmpty(); }
      if raw == [] { DecodeEmpty(); }
    } else {
      var w, d := Width(raw), Decode(raw).value;
      DecodeStep(raw);
      SuffixDecodes(raw[w..], n - 1);
      var rest := Suffix(raw[w..], n - 1);
      assert Suffix(raw, n) == rest;
      var k := |raw| - |rest|;
      assert raw[w..][..k - w] == raw[w..k];
      assert raw[w..][k - w..] == raw[k..];
      assert d[1..] == Decode(raw[w..]).value && d[1..][n - 1..] == d[n..];
      assert d[..n] == [d[0]] + d[1..][..n - 1];
    }
  }

  lemma {:induction false} DecodeEmpty()
    ensures Decode([]) == Some([])
  {
  }

  method EscapedSuffix(raw: Bytes, count: nat) returns (s: Bytes)
    requires Decode(raw).Some?
    ensures s == Suffix(raw, count)
  {
    var i, n := 0, count;
    while n > 0 && i < |raw|
      invariant i <= |raw| && Decode(raw[i..]).Some? && Suffix(raw[i..], n) == Suffix(raw, count)
      decreases n
    {
      ghost var rest := raw[i..];
      assert rest[Width(rest)..] == raw[i + Width(rest)..];
      if raw[i] == PERCENT { i := i + 3; } else { i := i + 1; }
      n := n - 1;
    }
    s := raw[i..];
  }

  // ---------------------------------------------------------------- rewriting

  datatype Rule = Rule(from: Bytes, to: Bytes)
  datatype Rewrites = Rewrites(exact: map<Bytes, Bytes>, prefixes: seq<Rule>)

  predicate HasPrefix(s: Bytes, p: Bytes) { p <= s }

  function TrimRightSlashes(s: Bytes): Bytes {
    if s != [] && s[|s| - 1] == SLASH then TrimRightSlashes(s[..|s| - 1]) else s
  }

  predicate NeedsSlash(tail: Bytes) { tail != [] && tail[0] != SLASH }

  /** The first rule whose prefix the path has. */
  function MatchPrefix(rules: seq<Rule>, path: Bytes): (rule: Option<Rule>)
    ensures rule.Some? ==> HasPrefix(path, rule.value.from)
  {
    if rules == [] then None else if HasPrefix(path, rules[0].from) then Some(rules[0]) else MatchPrefix(rules[1..], path)
  }

  /** Rewriting of a decoded path. */
  function Apply(r: Rewrites, path: Bytes): Bytes {
    if path in r.exact then r.exact[path]
    else
      var rule := MatchPrefix(r.prefixes, path);
      if rule.None? then path
      else
        var tail := path[|rule.value.from|..];
        TrimRightSlashes(rule.value.to) + (if NeedsSlash(tail) then [SLASH] else []) + tail
  }

  lemma {:induction false} SlashesTrimmed(s: Bytes) returns (n: nat)
    ensures n <= |s| && TrimRightSlashes(s) == s[..n] && (forall i :: n <= i < |s| ==> s[i] == SLASH)
    ensures n == 0 || s[n - 1] != SLASH
  {
    n := |s|;
    if s != [] && s[|s| - 1] == SLASH {
      n := SlashesTrimmed(s[..|s| - 1]);
      assert s[..|s| - 1][..n] == s[..n];
    }
  }

  /** What a rule makes of a path: an exact rule replaces it; otherwise the first prefix rule that fits puts its target, less
      the slashes at its end, before the rest of the path, which starts with a slash if there is any; otherwise it stays. */
  lemma {:induction false} RewriteMeans(r: Rewrites, path: Bytes, i: nat) returns (n: nat)
    requires path !in r.exact && i < |r.prefixes| && r.prefixes[i].from <= path
    requires forall j :: 0 <= j < i ==> !(r.prefixes[j].from <= path)
    ensures var rule, tail := r.prefixes[i], path[|r.prefixes[i].from|..];
            && n <= |rule.to| && (forall k :: n <= k < |rule.to| ==> rule.to[k] == SLASH) && (n == 0 || rule.to[n - 1] != SLASH)
            && Apply(r, path) == rule.to[..n] + (if tail != [] && tail[0] != SLASH then [SLASH] + tail else tail)
  {
    FirstPrefix(r.prefixes, path, i);
    n := SlashesTrimmed(r.prefixes[i].to);
    var tail := path[|r.prefixes[i].from|..];
    assert r.prefixes[i].to[..n] + [] == r.prefixes[i].to[..n];
    assert r.prefixes[i].to[..n] + [SLASH] + tail == r.prefixes[i].to[..n] + ([SLASH] + tail);
  }

  lemma {:induction false} FirstPrefix(rules: seq<Rule>, path: Bytes, i: nat)
    requires i < |rules| && rules[i].from <= path && forall j :: 0 <= j < i ==> !(rules[j].from <= path)
    ensures MatchPrefix(rules, path) == Some(rules[i])
  {
    if i > 0 {
      assert forall j :: 0 <= j < i ==> rules[1..][j] == rules[j + 1];
      FirstPrefix(rules[1..], path, i - 1);
    }
  }

  /** Rewriting of both forms. */
  method ApplyPath(x: Escaping, r: Rewrites, p: Path) returns (q: Path)
    requires Sound(x) && InSync(x, p)
    ensures q == Applied(x, r, p)
  {
    hide Decode, Suffix, Encode, Apply, TrimRightSlashes;
    if p.rawPath == [] { return Path(Apply(r, p.path), []); }
    if p.path in r.exact { return Path(r.exact[p.path], []); }
    var k := 0;
    while k < |r.prefixes|
      invariant k <= |r.prefixes| && MatchPrefix(r.prefixes[k..], p.path) == MatchPrefix(r.prefixes, p.path)
    {
      assert r.prefixes[k..][1..] == r.prefixes[k + 1..];
      var rule := r.prefixes[k];
      if HasPrefix(p.path, rule.from) {
        var tail := p.path[|rule.from|..];
        var rawTail := EscapedSuffix(p.rawPath, |rule.from|);
        if NeedsSlash(tail) { tail, rawTail := [SLASH] + tail, [SLASH] + rawTail; }
        var prefix := TrimRightSlashes(rule.to);
        return Path(prefix + tail, EscapedPath(x, Path(prefix, [])) + rawTail);
      }
      k := k + 1;
    }
    q := p;
  }

  ghost function Applied(x: Escaping, r: Rewrites, p: Path): Path
    requires InSync(x, p)
  {
    if p.rawPath == [] then Path(Apply(r, p.path), [])
    else if p.path in r.exact then Path(r.exact[p.path], [])
    else
      var rule := MatchPrefix(r.prefixes, p.path);
      if rule.None? then p
      else
        var n := |rule.value.from|;
        var tail := p.path[n..];
        var slash := if NeedsSlash(tail) then [SLASH] else [];
        var prefix := TrimRightSlashes(rule.value.to);
        Path(prefix + (slash + tail), Encode(x, prefix) + (slash + Suffix(p.rawPath, n)))
  }

  lemma {:induction false} PlainConcat(x: Escaping, a: Bytes, b: Bytes)
    requires Plain(x, a) && Plain(x, b)
    ensures Plain(x, a + b)
  {
  }

  /** A new prefix in front of what is left of the escaped form. */
  lemma {:induction false} Reassembled(x: Escaping, prefix: Bytes, slash: Bytes, raw: Bytes, n: nat)
    requires Sound(x) && Plain(x, raw) && Decode(raw).Some? && n <= |Decode(raw).value| && (slash == [] || slash == [SLASH])
    ensures var q := Encode(x, prefix) + (slash + Suffix(raw, n));
            Plain(x, q) && Decode(q) == Some(prefix + (slash + Decode(raw).value[n..]))
  {
    SuffixDecodes(raw, n);
    EncodeRoundTrip(x, prefix);
    SlashDecodes(slash);
    var rawTail, k := Suffix(raw, n), |raw| - |Suffix(raw, n)|;
    hide Decode, Suffix, Encode;
    assert forall i :: 0 <= i < |rawTail| ==> rawTail[i] == raw[k + i];
    PlainConcat(x, slash, rawTail);
    PlainConcat(x, Encode(x, prefix), slash + rawTail);
    DecodeConcat(slash, rawTail);
    DecodeConcat(Encode(x, prefix), slash + rawTail);
  }

  /** The rewritten forms agree with each other and with rewriting the decoded path alone. */
  lemma {:induction false} RewriteKeepsForms(x: Escaping, r: Rewrites, p: Path)
    requires Sound(x) && InSync(x, p)
    ensures Applied(x, r, p).path == Apply(r, p.path)
    ensures InSync(x, Applied(x, r, p))
  {
    hide Decode, Suffix, Encode, TrimRightSlashes, MatchPrefix, Plain, Sound;
    var rule := MatchPrefix(r.prefixes, p.path);
    if p.rawPath != [] && p.path !in r.exact && rule.Some? {
      var n := |rule.value.from|;
      var tail := p.path[n..];
      var prefix := TrimRightSlashes(rule.value.to);
      var slash: Bytes := if NeedsSlash(tail) then [SLASH] else [];
      Reassembled(x, prefix, slash, p.rawPath, n);
      assert prefix + slash + tail == prefix + (slash + tail);
    }
  }

  lemma {:induction false} SlashDecodes(slash: Bytes)
    requires slash == [] || slash == [SLASH]
    ensures Decode(slash) == Some(slash)
  {
    if slash != [] {
      assert slash[1..] == [];
      var none: Bytes := [];
      assert [SLASH] + none == [SLASH];
    }
  }

  /** What a prefix rule does not replace is sent byte for byte as it came in. */
  lemma {:induction false} EscapedTailIsVerbatim(x: Escaping, r: Rewrites, p: Path)
    requires Sound(x) && InSync(x, p) && p.rawPath != [] && p.path !in r.exact
    ensures var q := Applied(x, r, p);
            match MatchPrefix(r.prefixes, p.path)
            case None => q == p
            case Some(rule) =>
              exists k :: 0 <= k <= |p.rawPath| && Decode(p.rawPath[..k]) == Some(rule.from)
                && q.rawPath == Encode(x, TrimRightSlashes(rule.to))
                                + (if NeedsSlash(p.path[|rule.from|..]) then [SLASH] else []) + p.rawPath[k..]
  {
    var rule := MatchPrefix(r.prefixes, p.path);
    if rule.Some? {
      var n := |rule.value.from|;
      SuffixDecodes(p.rawPath, n);
      hide Decode, Suffix, Encode, TrimRightSlashes, MatchPrefix;
      var k := |p.rawPath| - |Suffix(p.rawPath, n)|;
      assert p.path[..n] == rule.value.from;
      assert Decode(p.rawPath[..k]) == Some(rule.value.from);
      var slash: Bytes := if NeedsSlash(p.path[n..]) then [SLASH] else [];
      var prefix := Encode(x, TrimRightSlashes(rule.value.to));
      assert prefix + slash + p.rawPath[k..] == prefix + (slash + Suffix(p.rawPath, n));
    }
  }

  // ---------------------------------------------------------------- escaped slashes

  function Slashes(s: Bytes): nat {
    if s == [] then 0 else (if s[0] == SLASH then 1 else 0) + Slashes(s[1..])
  }

  /** Slashes of the decoded form that are not literal in the escaped one. */
  function EscapedSlashes(raw: Bytes): int
    requires Decode(raw).Some?
  {
    Slashes(Decode(raw).value) - Slashes(raw)
  }

  lemma {:induction false} SlashesConcat(a: Bytes, b: Bytes)
    ensures Slashes(a + b) == Slashes(a) + Slashes(b)
  {
    if a == [] { assert a + b == b; }
    else {
      SlashesConcat(a[1..], b);
      assert (a + b)[1..] == a[1..] + b;
    }
  }

  lemma {:induction false} NoSlashes(s: Bytes)
    requires SLASH !in s
    ensures Slashes(s) == 0
  {
    if s != [] { NoSlashes(s[1..]); }
  }

  lemma {:induction false} EscapedSlashesConcat(a: Bytes, b: Bytes)
    requires Decode(a).Some? && Decode(b).Some?
    ensures Decode(a + b).Some? && EscapedSlashes(a + b) == EscapedSlashes(a) + EscapedSlashes(b)
  {
    DecodeConcat(a, b);
    hide Decode;
    SlashesConcat(a, b);
    SlashesConcat(Decode(a).value, Decode(b).value);
  }

  /** An encoder leaves every slash literal. */
  lemma {:induction false} EncodedSlashes(x: Escaping, p: Bytes)
    requires Sound(x)
    ensures Slashes(Encode(x, p)) == Slashes(p)
  {
    if p != [] {
      EncodedSlashes(x, p[1..]);
      var rest := Encode(x, p[1..]);
      if p[0] in x.safe {
        assert ([p[0]] + rest)[1..] == rest;
      } else {
        var e: Bytes := [PERCENT, HexDigit(p[0] / 16), HexDigit(p[0] % 16)];
        NoSlashes(e);
        SlashesConcat(e, rest);
      }
    }
  }

  lemma {:induction false} EncodedHasNoEscapedSlash(x: Escaping, p: Bytes)
    requires Sound(x)
    ensures Decode(Encode(x, p)).Some? && EscapedSlashes(Encode(x, p)) == 0
  {
    EncodeRoundTrip(x, p);
    EncodedSlashes(x, p);
    hide Decode, Encode;
  }

  /** The part of the escaped form that stands for the first `n` decoded bytes. */
  function Head(raw: Bytes, n: nat): Bytes
    requires Decode(raw).Some? && |Suffix(raw, n)| <= |raw|
  {
    raw[..|raw| - |Suffix(raw, n)|]
  }

  /** Exactly when a rewrite keeps every escaped slash escaped on the wire. An exact rule keeps none, no rule keeps all,
      and a prefix rule keeps them if and only if the part of the escaped path that it replaces has as many literal
      slashes as the prefix it was matched with: the others were escaped, and are sent literally or not at all. */
  lemma {:induction false} EscapedSlashesSurviveIff(x: Escaping, r: Rewrites, p: Path)
    requires Sound(x) && InSync(x, p)
    ensures var sent, came := EscapedPath(x, Applied(x, r, p)), EscapedPath(x, p);
            && Decode(sent).Some? && Decode(came).Some? && EscapedSlashes(sent) <= EscapedSlashes(came)
            && (EscapedSlashes(sent) == EscapedSlashes(came) <==>
                  if p.path in r.exact then EscapedSlashes(came) == 0
                  else match MatchPrefix(r.prefixes, p.path)
                    case None => true
                    case Some(rule) =>
                      p.rawPath == []
                      || (|Suffix(p.rawPath, |rule.from|)| <= |p.rawPath|
                          && Slashes(Head(p.rawPath, |rule.from|)) == Slashes(rule.from)))
  {
    var q := Applied(x, r, p);
    RewriteKeepsForms(x, r, p);
    EscapedPathInSync(x, p);
    EscapedPathInSync(x, q);
    EncodedHasNoEscapedSlash(x, p.path);
    EncodedHasNoEscapedSlash(x, q.path);
    EscapedNeverNegative(EscapedPath(x, p));
    var rule := MatchPrefix(r.prefixes, p.path);
    if p.rawPath != [] && p.path !in r.exact && rule.Some? {
      PrefixSlashes(x, TrimRightSlashes(rule.value.to), NeedsSlash(p.path[|rule.value.from|..]), p.rawPath, |rule.value.from|);
      hide Decode, Encode, Suffix, Slashes, MatchPrefix, TrimRightSlashes, Plain;
      assert p.path[..|rule.value.from|] == rule.value.from;
      if q.rawPath == [] { DecodeEmpty(); }
    }
  }

  lemma {:induction false} EscapedNeverNegative(raw: Bytes)
    requires Decode(raw).Some?
    ensures EscapedSlashes(raw) >= 0
  {
    if raw != [] {
      var w := Width(raw);
      DecodeStep(raw);
      EscapedNeverNegative(raw[w..]);
      var first := raw[..w];
      assert raw == first + raw[w..];
      SlashesConcat(first, raw[w..]);
      if w == 3 {
        assert HexValue(SLASH).None? && first == [raw[0], raw[1], raw[2]];
        NoSlashes(first);
      } else {
        assert first[1..] == [];
      }
    }
  }

  lemma {:induction false} PrefixSlashes(x: Escaping, prefix: Bytes, separated: bool, raw: Bytes, n: nat)
    requires Sound(x) && Decode(raw).Some? && n <= |Decode(raw).value|
    ensures var q := Encode(x, prefix) + ((if separated then [SLASH] else []) + Suffix(raw, n));
            && Decode(q).Some? && |Suffix(raw, n)| <= |raw| && EscapedSlashes(q) <= EscapedSlashes(raw)
            && (EscapedSlashes(q) == EscapedSlashes(raw) <==> Slashes(Head(raw, n)) == Slashes(Decode(raw).value[..n]))
  {
    var slash: Bytes := if separated then [SLASH] else [];
    var tail := Suffix(raw, n);
    SuffixDecodes(raw, n);
    var head := Head(raw, n);
    assert raw == head + tail;
    SlashDecodes(slash);
    EncodedHasNoEscapedSlash(x, prefix);
    EscapedNeverNegative(head);
    EscapedSlashesConcat(head, tail);
    EscapedSlashesConcat(slash, tail);
    EscapedSlashesConcat(Encode(x, prefix), slash + tail);
  }

  /** A rule for everything below a directory makes an escaped slash literal: under the rule that maps /a/ to itself a
      request for /a%2Fb is sent as /a/b. */
  lemma {:induction false} EscapedSlashCanBecomeLiteral(x: Escaping)
    requires Sound(x) && {97, 98} <= x.safe
    ensures var dir: Bytes := [SLASH, 97, SLASH];
            var r := Rewrites(map[], [Rule(dir, dir)]);
            var p := Path(dir + [98], [SLASH, 97, PERCENT, 50, 70, 98]);
            InSync(x, p) && Applied(x, r, p) == Path(dir + [98], dir + [98]) && EscapedPath(x, Applied(x, r, p)) == dir + [98]
  {
    var dir: Bytes := [SLASH, 97, SLASH];
    var raw: Bytes := [SLASH, 97, PERCENT, 50, 70, 98];
    var last: Bytes := [98];
    SampleDecodes();
    assert Decode(raw) == Some(dir + last);
    assert HexDigit(2) == 50 && HexDigit(15) == 70;
    assert [SLASH] + last == [SLASH, 98];
    assert raw[1..] == [97, PERCENT, 50, 70, 98] && raw[1..][1..] == [PERCENT, 50, 70, 98] && raw[1..][1..][3..] == last;
    assert Suffix(raw[1..][1..], 1) == Suffix(last, 0) == last;
    assert Suffix(raw[1..], 2) == last;
    assert Suffix(raw, 3) == last;
    assert (dir + last)[3..] == last;
    assert dir[..2] == [SLASH, 97];
    assert TrimRightSlashes(dir) == [SLASH, 97];
    DirEncodes(x);
    assert [SLASH, 97] + ([SLASH] + last) == dir + last;
    var p, q := Path(dir + last, raw), Path(dir + last, dir + last);
    assert Decode(dir + last) == Some(dir + last) by { PlainDecodes(dir + last); }
  }

  lemma {:induction false} SampleDecodes()
    ensures Decode([SLASH, 97, PERCENT, 50, 70, 98]) == Some([SLASH, 97, SLASH] + [98])
  {
    var dir: Bytes := [SLASH, 97, SLASH];
    var raw: Bytes := [SLASH, 97, PERCENT, 50, 70, 98];
    assert HexDigit(2) == 50 && HexDigit(15) == 70;
    assert raw[1..] == [97, PERCENT, 50, 70, 98] && raw[1..][1..] == [PERCENT, 50, 70, 98] && raw[1..][1..][3..] == [98];
    var none: Bytes := [];
    var last: Bytes := [98];
    assert last[1..] == none && Decode(none) == Some(none) && [98] + none == last;
    assert Decode(last) == Some(last);
    assert [SLASH] + last == [SLASH, 98];
    assert Decode(raw[1..][1..]) == Some([SLASH, 98]);
    assert [97] + [SLASH, 98] == [97, SLASH, 98];
    assert Decode(raw[1..]) == Some([97, SLASH, 98]);
    assert [SLASH] + [97, SLASH, 98] == dir + last;
    assert Decode(raw) == Some(dir + last);
  }

  lemma {:induction false} DirEncodes(x: Escaping)
    requires Sound(x) && 97 in x.safe
    ensures var d: Bytes := [SLASH, 97]; Encode(x, d) == d
  {
    var d: Bytes := [SLASH, 97];
    var a: Bytes := [97];
    var none: Bytes := [];
    assert d[1..] == a && a[1..] == none && Encode(x, none) == none;
    assert a + none == a && Encode(x, a) == a;
    assert [SLASH] + a == d;
  }

  lemma {:induction false} PlainDecodes(s: Bytes)
    requires PERCENT !in s
    ensures Decode(s) == Some(s)
  {
    if s != [] {
      PlainDecodes(s[1..]);
      assert s == [s[0]] + s[1..];
    }
  }

  // ---------------------------------------------------------------- joining base and request

  predicate EndsWithSlash(s: Bytes) { s != [] && s[|s| - 1] == SLASH }

  predicate StartsWithSlash(s: Bytes) { s != [] && s[0] == SLASH }

  function SingleJoiningSlash(a: Bytes, b: Bytes): Bytes {
    if EndsWithSlash(a) && StartsWithSlash(b) then a + b[1..]
    else if !EndsWithSlash(a) && !StartsWithSlash(b) then a + [SLASH] + b
    else a + b
  }

  /** Joining with the seam decided by literal slashes of the escaped forms. */
  function JoinEscaped(x: Escaping, base: Path, request: Path): (p: Path) {
    var b, r := EscapedPath(x, base), EscapedPath(x, request);
    if EndsWithSlash(b) && StartsWithSlash(r) then
      Path(base.path + if request.path == [] then [] else request.path[1..], b + r[1..])
    else if !EndsWithSlash(b) && !StartsWithSlash(r) then Path(base.path + [SLASH] + request.path, b + [SLASH] + r)
    else Path(base.path + request.path, b + r)
  }

  function JoinURLPath(x: Escaping, base: Path, request: Path): Path {
    if base.rawPath == [] && request.rawPath == [] then Path(SingleJoiningSlash(base.path, request.path), [])
    else JoinEscaped(x, base, request)
  }

  lemma {:induction false} LeadingSlash(raw: Bytes)
    requires Decode(raw).Some? && StartsWithSlash(raw)
    ensures StartsWithSlash(Decode(raw).value) && Decode(raw[1..]) == Some(Decode(raw).value[1..])
  {
  }

  lemma {:induction false} Regroup(d: Bytes, left: Bytes, right: Bytes)
    requires d != [] && d[1..] == left + [SLASH] + right
    ensures d == ([d[0]] + left) + [SLASH] + right
  {
  }

  /** A literal slash is never inside an escape: both sides of it decode. */
  lemma {:induction false} CutAtSlash(raw: Bytes, k: nat)
    requires Decode(raw).Some? && k < |raw| && raw[k] == SLASH
    ensures Decode(raw[..k]).Some? && Decode(raw[k + 1..]).Some?
    ensures Decode(raw).value == Decode(raw[..k]).value + [SLASH] + Decode(raw[k + 1..]).value
  {
    if k == 0 {
      assert raw[..0] == [];
      assert Decode(raw[..0]).value + [SLASH] == [SLASH];
    } else {
      var w := Width(raw);
      DecodeStep(raw);
      var rest, d := raw[w..], Decode(raw).value;
      assert k >= w;
      CutAtSlash(rest, k - w);
      assert rest[..k - w] == raw[w..k] && rest[k - w + 1..] == raw[k + 1..];
      var left, right := Decode(raw[w..k]).value, Decode(raw[k + 1..]).value;
      hide Decode;
      Regroup(d, left, right);
    }
  }

  lemma {:induction false} TrailingSlash(raw: Bytes)
    requires Decode(raw).Some? && EndsWithSlash(raw)
    ensures EndsWithSlash(Decode(raw).value)
  {
    CutAtSlash(raw, |raw| - 1);
    DecodeEmpty();
    assert raw[|raw|..] == [];
    var d := Decode(raw[..|raw| - 1]).value;
    assert Decode(raw).value == d + [SLASH] by { assert d + [SLASH] + [] == d + [SLASH]; }
  }

  /** Joining keeps the forms in step, whatever slashes, literal or escaped, meet at the seam. */
  lemma {:induction false} JoinKeepsForms(x: Escaping, base: Path, request: Path)
    requires Sound(x)
    ensures InSync(x, JoinURLPath(x, base, request))
  {
    if base.rawPath != [] || request.rawPath != [] {
      EscapedPathInSync(x, base);
      EscapedPathInSync(x, request);
      var b, r := EscapedPath(x, base), EscapedPath(x, request);
      if StartsWithSlash(r) { LeadingSlash(r); }
      SlashDecodes([SLASH]);
      hide Decode, EscapedPath;
      if EndsWithSlash(b) && StartsWithSlash(r) {
        DecodeConcat(b, r[1..]);
        PlainConcat(x, b, r[1..]);
      } else if !EndsWithSlash(b) && !StartsWithSlash(r) {
        DecodeConcat(b, [SLASH]);
        DecodeConcat(b + [SLASH], r);
        PlainConcat(x, b, [SLASH]);
        PlainConcat(x, b + [SLASH], r);
      } else {
        DecodeConcat(b, r);
        PlainConcat(x, b, r);
      }
    }
  }

  /** Of the literal slashes that meet at the seam at most one is dropped, and one is added when there is none; the rest
      of an escaped request path that was in step is sent verbatim behind it. */
  lemma {:induction false} SeamIsOneSlash(x: Escaping, base: Path, request: Path)
    requires Sound(x) && InSync(x, request) && request.rawPath != []
    ensures var b, q := EscapedPath(x, base), JoinURLPath(x, base, request).rawPath;
            q == (if EndsWithSlash(b) then b[..|b| - 1] else b) + [SLASH]
                 + (if StartsWithSlash(request.rawPath) then request.rawPath[1..] else request.rawPath)
  {
    var b, r := EscapedPath(x, base), request.rawPath;
    hide Decode, Encode;
    if EndsWithSlash(b) { assert b == b[..|b| - 1] + [SLASH]; }
    if StartsWithSlash(r) { assert r == [SLASH] + r[1..]; }
  }

  /** The decoded result is the plain join exactly when no escaped slash at the seam changes the decision. */
  lemma {:induction false} JoinAgreesWithDecodedIff(x: Escaping, base: Path, request: Path)
    requires Sound(x)
    ensures var b, r := EscapedPath(x, base), EscapedPath(x, request);
            JoinEscaped(x, base, request).path == SingleJoiningSlash(base.path, request.path) <==>
              && (EndsWithSlash(b) && StartsWithSlash(r) <==> EndsWithSlash(base.path) && StartsWithSlash(request.path))
              && (EndsWithSlash(b) || StartsWithSlash(r) <==> EndsWithSlash(base.path) || StartsWithSlash(request.path))
  {
    EscapedPathInSync(x, base);
    EscapedPathInSync(x, request);
    var b, r := EscapedPath(x, base), EscapedPath(x, request);
    if EndsWithSlash(b) { TrailingSlash(b); }
    if StartsWithSlash(r) { LeadingSlash(r); }
    hide Decode, EscapedPath;
  }

  lemma {:induction false} EncodedEnds(x: Escaping, p: Bytes)
    requires Sound(x)
    ensures StartsWithSlash(Encode(x, p)) <==> StartsWithSlash(p)
    ensures EndsWithSlash(Encode(x, p)) <==> EndsWithSlash(p)
    ensures Encode(x, p) == [] <==> p == []
  {
    if p != [] { EncodedEnds(x, p[1..]); }
  }

  /** The short cut for plain paths decides the seam as the long way would. */
  lemma {:induction false} PlainJoinAgrees(x: Escaping, base: Bytes, request: Bytes)
    requires Sound(x)
    ensures JoinURLPath(x, Path(base, []), Path(request, [])).path == JoinEscaped(x, Path(base, []), Path(request, [])).path
  {
    EncodedEnds(x, base);
    EncodedEnds(x, request);
    hide Encode, Decode;
  }

  // ---------------------------------------------------------------- splitting off the vendor

  function TrimLeadingSlash(s: Bytes): Bytes { if StartsWithSlash(s) then s[1..] else s }

  /** The position of the first slash, or the length. */
  function FirstSlash(s: Bytes): (k: nat)
    ensures k <= |s| && (k < |s| ==> s[k] == SLASH) && forall i :: 0 <= i < k ==> s[i] != SLASH
  {
    if s == [] || s[0] == SLASH then 0 else 1 + FirstSlash(s[1..])
  }

  function SplitVendorPath(s: Bytes): Option<(Bytes, Bytes)> {
    var clean := TrimLeadingSlash(s);
    var k := FirstSlash(clean);
    if k == 0 then None else Some((clean[..k], if k == |clean| then [SLASH] else clean[k..]))
  }

  function SplitVendorRequestPath(x: Escaping, u: Path): Option<(Bytes, Path)> {
    var parts := SplitVendorPath(EscapedPath(x, u));
    if parts.None? then None
    else
      var vendor, path := Decode(parts.value.0), Decode(parts.value.1);
      if vendor.None? || SLASH in vendor.value || path.None? then None
      else Some((vendor.value, Path(path.value, if parts.value.1 != path.value then parts.value.1 else [])))
  }

  /** Splitting keeps the forms in step and loses nothing; a vendor is one literal path segment, and the request is
      refused exactly when that segment is empty or hides an escaped slash. Undecodable pieces do not occur. */
  lemma {:induction false} SplitKeepsForms(x: Escaping, u: Path)
    requires Sound(x)
    ensures var clean := TrimLeadingSlash(EscapedPath(x, u));
            var k := FirstSlash(clean);
            && Decode(clean[..k]).Some?
            && (SplitVendorRequestPath(x, u).None? <==> k == 0 || SLASH in Decode(clean[..k]).value)
    ensures match SplitVendorRequestPath(x, u)
            case None => true
            case Some((vendor, p)) =>
              && InSync(x, p) && vendor != [] && SLASH !in vendor
              && StartsWithSlash(p.path)
              && (TrimLeadingSlash(u.path) == vendor + p.path || (TrimLeadingSlash(u.path) == vendor && p.path == [SLASH]))
  {
    EscapedPathInSync(x, u);
    var raw := EscapedPath(x, u);
    TrimDecodes(raw);
    var clean := TrimLeadingSlash(raw);
    SplitPieces(clean);
    TailIsPlain(x, raw);
    var k := FirstSlash(clean);
    if k > 0 {
      DecodedNonEmpty(clean[..k]);
      TrimAgrees(raw);
    }
    hide Decode, EscapedPath, Plain, FirstSlash, TrimLeadingSlash;
    var piece: Bytes := if k == |clean| then [SLASH] else clean[k..];
    assert SplitVendorPath(raw) == if k == 0 then None else Some((clean[..k], piece));
    if k == |clean| { assert clean[k..] == []; DecodeEmpty(); assert Decode(clean[..k]).value + [] == Decode(clean[..k]).value; }
  }

  lemma {:induction false} TrimDecodes(raw: Bytes)
    requires Decode(raw).Some?
    ensures Decode(TrimLeadingSlash(raw)).Some?
  {
    if StartsWithSlash(raw) { LeadingSlash(raw); }
  }

  lemma {:induction false} TailIsPlain(x: Escaping, raw: Bytes)
    requires Sound(x) && Plain(x, raw)
    ensures var clean := TrimLeadingSlash(raw); Plain(x, clean[FirstSlash(clean)..]) && Plain(x, [SLASH])
  {
    var clean := TrimLeadingSlash(raw);
    var k := FirstSlash(clean);
    assert forall i :: 0 <= i < |clean| ==> clean[i] in x.allowed;
  }

  /** Dropping the leading slash agrees in both forms, unless an escaped slash leads the vendor. */
  lemma {:induction false} TrimAgrees(raw: Bytes)
    requires Decode(raw).Some?
    ensures var clean := TrimLeadingSlash(raw);
            var k := FirstSlash(clean);
            k > 0 && Decode(clean).Some? && Decode(clean[..k]).Some? && SLASH !in Decode(clean[..k]).value ==>
              TrimLeadingSlash(Decode(raw).value) == Decode(clean).value
  {
    var clean := TrimLeadingSlash(raw);
    var k := FirstSlash(clean);
    hide FirstSlash;
    if StartsWithSlash(raw) { LeadingSlash(raw); }
    else if k > 0 && Decode(clean[..k]).Some? && SLASH !in Decode(clean[..k]).value { UnslashedStart(clean, k); }
  }

  lemma {:induction false} DecodedNonEmpty(raw: Bytes)
    requires raw != [] && Decode(raw).Some?
    ensures Decode(raw).value != []
  {
  }

  lemma {:induction false} SplitPieces(clean: Bytes)
    requires Decode(clean).Some?
    ensures var k := FirstSlash(clean);
            && Decode(clean[..k]).Some? && Decode(clean[k..]).Some?
            && Decode(clean).value == Decode(clean[..k]).value + Decode(clean[k..]).value
            && (k < |clean| ==> StartsWithSlash(Decode(clean[k..]).value))
    ensures Decode([SLASH]) == Some([SLASH])
  {
    var k := FirstSlash(clean);
    SlashDecodes([SLASH]);
    if k == |clean| {
      assert clean[..k] == clean && clean[k..] == [];
      DecodeEmpty();
      assert Decode(clean).value + [] == Decode(clean).value;
    } else {
      CutAtSlash(clean, k);
      assert clean[k..] == [SLASH] + clean[k + 1..];
      DecodeConcat([SLASH], clean[k + 1..]);
    }
  }

  lemma {:induction false} UnslashedStart(clean: Bytes, k: nat)
    requires Decode(clean).Some? && 0 < k <= |clean| && Decode(clean[..k]).Some? && SLASH !in Decode(clean[..k]).value
    ensures !StartsWithSlash(Decode(clean).value)
  {
    DecodeConcatHead(clean, k);
  }

  lemma {:induction false} DecodeConcatHead(clean: Bytes, k: nat)
    requires Decode(clean).Some? && 0 < k <= |clean| && Decode(clean[..k]).Some?
    ensures Decode(clean[..k]).value != [] && Decode(clean).value != [] && Decode(clean).value[0] == Decode(clean[..k]).value[0]
  {
    assert clean == clean[..k] + clean[k..];
    DecodeConcat(clean[..k], clean[k..]);
    DecodedNonEmpty(clean[..k]);
  }

  /** From the incoming request to the upstream URL: after splitting, rewriting and joining, the forms still agree. */
  lemma {:induction false} TargetKeepsForms(x: Escaping, u: Path, r: Rewrites, base: Path)
    requires Sound(x) && SplitVendorRequestPath(x, u).Some?
    ensures var p := SplitVendorRequestPath(x, u).value.1;
            InSync(x, p) && Applied(x, r, p).path == Apply(r, p.path) && InSync(x, JoinURLPath(x, base, Applied(x, r, p)))
  {
    SplitKeepsForms(x, u);
    var p := SplitVendorRequestPath(x, u).value.1;
    hide *;
    RewriteKeepsForms(x, r, p);
    JoinKeepsForms(x, base, Applied(x, r, p));
  }
}
