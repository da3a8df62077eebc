// String operations of JavaScript that the pipeline relies on, stated over
// `string` (a sequence of characters): the `\s` class and `trim`, the global
// regular-expression replacements used for whitespace collapsing and entity
// unescaping, `slice`, `split`/`join`, ASCII case-insensitive search (the
// `i` flag of a non-Unicode regular expression over an ASCII pattern) and
// decimal formatting of counters.

module Text {
  import opened Basics

  /** `\s` of JavaScript regular expressions, which is also the set that
      `String.prototype.trim` removes: TAB, VT, FF, ZWNBSP, the space
      separators of Unicode category Zs, and the four line terminators. */
  predicate IsWs(c: char) {
    || c == ' ' || c == '\t' || c == '\n' || c == '\r'
    || c == '\U{000B}' || c == '\U{000C}' || c == '\U{00A0}' || c == '\U{1680}'
    || ('\U{2000}' <= c <= '\U{200A}')
    || c == '\U{2028}' || c == '\U{2029}' || c == '\U{202F}' || c == '\U{205F}'
    || c == '\U{3000}' || c == '\U{FEFF}'
  }

  /** The characters that `.` in a JavaScript regular expression does not match. */
  predicate IsLineTerminator(c: char) {
    c == '\n' || c == '\r' || c == '\U{2028}' || c == '\U{2029}'
  }

  lemma {:induction false} LineTerminatorIsWs(c: char)
    ensures IsLineTerminator(c) ==> IsWs(c)
  {
  }

  ghost predicate AllWs(s: string) {
    forall i :: 0 <= i < |s| ==> IsWs(s[i])
  }

  /** No whitespace character at all. */
  ghost predicate NoWs(s: string) {
    forall i :: 0 <= i < |s| ==> !IsWs(s[i])
  }

  /** Every whitespace character is a plain space. */
  ghost predicate SpacesOnly(s: string) {
    forall i :: 0 <= i < |s| && IsWs(s[i]) ==> s[i] == ' '
  }

  /** No two whitespace characters are adjacent. */
  ghost predicate NoDoubleWs(s: string) {
    forall i, j :: 0 <= i && j == i + 1 && j < |s| ==> !(IsWs(s[i]) && IsWs(s[j]))
  }

  /** `s.trimStart()`: removes the leading whitespace and nothing else. */
  function TrimStart(s: string): (r: string)
    ensures |r| <= |s| && r == s[|s| - |r|..]
    ensures AllWs(s[..|s| - |r|])
    ensures r == [] || !IsWs(r[0])
    decreases |s|
  {
    if s != [] && IsWs(s[0]) then TrimStart(s[1..]) else s
  }

  /** `s.trimEnd()`: removes the trailing whitespace and nothing else. */
  function TrimEnd(s: string): (r: string)
    ensures |r| <= |s| && r == s[..|r|]
    ensures AllWs(s[|r|..])
    ensures r == [] || !IsWs(r[|r| - 1])
    decreases |s|
  {
    if s != [] && IsWs(s[|s| - 1]) then
      var init := s[..|s| - 1];
      var r := TrimEnd(init);
      assert init[..|r|] == s[..|r|];
      assert s[|r|..] == init[|r|..] + [s[|s| - 1]];
      r
    else s
  }

  /** `s.trim()`. */
  function Trim(s: string): (r: string)
    ensures |r| <= |s|
    ensures r == [] || (!IsWs(r[0]) && !IsWs(r[|r| - 1]))
  {
    TrimEnd(TrimStart(s))
  }

  /** Trimming removes exactly the whitespace around the text: a string made
      of whitespace, a core that neither starts nor ends with whitespace, and
      more whitespace trims to that core. */
  lemma {:induction false} TrimOfPadded(a: string, t: string, b: string)
    requires AllWs(a) && AllWs(b)
    requires t == [] || (!IsWs(t[0]) && !IsWs(t[|t| - 1]))
    ensures Trim(a + t + b) == t
  {
    if t == [] {
      assert a + t + b == (a + b) + [];
      TrimStartDrop(a + b, []);
    } else {
      assert a + t + b == a + (t + b);
      TrimStartDrop(a, t + b);
      TrimEndDrop(t, b);
    }
  }

  lemma {:induction false} TrimStartDrop(a: string, u: string)
    requires AllWs(a)
    requires u == [] || !IsWs(u[0])
    ensures TrimStart(a + u) == u
    decreases |a|
  {
    if a == [] {
      assert a + u == u;
    } else {
      assert (a + u)[1..] == a[1..] + u;
      TrimStartDrop(a[1..], u);
    }
  }

  lemma {:induction false} TrimEndDrop(t: string, b: string)
    requires AllWs(b)
    requires t == [] || !IsWs(t[|t| - 1])
    ensures TrimEnd(t + b) == t
    decreases |b|
  {
    if b == [] {
      assert t + b == t;
    } else {
      assert (t + b)[..|t + b| - 1] == t + b[..|b| - 1];
      TrimEndDrop(t, b[..|b| - 1]);
    }
  }

  /** `s.replace(/\s+/g, ' ')`: every maximal run of whitespace becomes one
      space. */
  function CollapseWs(s: string): (r: string)
    ensures |r| <= |s|
    ensures |s| > 0 ==> |r| > 0 && (IsWs(r[0]) <==> IsWs(s[0]))
    ensures SpacesOnly(r)
    ensures NoDoubleWs(r)
    decreases |s|
  {
    if s == [] then []
    else if IsWs(s[0]) then
      var rest := CollapseWs(TrimStart(s[1..]));
      ConsCollapsed(' ', rest);
      [' '] + rest
    else
      var rest := CollapseWs(s[1..]);
      ConsCollapsed(s[0], rest);
      [s[0]] + rest
  }

  lemma {:induction false} ConsCollapsed(x: char, rest: string)
    requires SpacesOnly(rest) && NoDoubleWs(rest)
    requires IsWs(x) ==> x == ' ' && (rest == [] || !IsWs(rest[0]))
    ensures SpacesOnly([x] + rest) && NoDoubleWs([x] + rest)
  {
    var r := [x] + rest;
    forall i | 0 <= i < |r| && IsWs(r[i])
      ensures r[i] == ' '
    {
      if i > 0 {
        assert r[i] == rest[i - 1];
      }
    }
    forall i, j | 0 <= i && j == i + 1 && j < |r|
      ensures !(IsWs(r[i]) && IsWs(r[j]))
    {
      assert r[j] == rest[i];
      if i > 0 {
        assert r[i] == rest[i - 1];
      }
    }
  }

  /** A string whose whitespace is already single spaces comes back
      unchanged. */
  lemma {:induction false} CollapseFixed(s: string)
    requires SpacesOnly(s) && NoDoubleWs(s)
    ensures CollapseWs(s) == s
    decreases |s|
  {
    if s != [] {
      CollapseFixed(s[1..]);
      if IsWs(s[0]) {
        assert s[1..] == [] || !IsWs(s[1..][0]);
        TrimStartDrop([], s[1..]);
        assert [] + s[1..] == s[1..];
      }
      assert [s[0]] + s[1..] == s;
    }
  }

  /** The characters of `s` that are not whitespace, in order. */
  function NonWs(s: string): string
  {
    if s == [] then [] else (if IsWs(s[0]) then [] else [s[0]]) + NonWs(s[1..])
  }

  /** Collapsing whitespace keeps every other character, in order. */
  lemma {:induction false} CollapseKeepsText(s: string)
    ensures NonWs(CollapseWs(s)) == NonWs(s)
    decreases |s|
  {
    if s != [] {
      if IsWs(s[0]) {
        var t := TrimStart(s[1..]);
        CollapseKeepsText(t);
        assert NonWs(s[1..]) == NonWs(t) by {
          var pre := s[1..][..|s[1..]| - |t|];
          NonWsOfWsPrefix(s[1..], |s[1..]| - |t|);
          assert s[1..] == pre + t;
          NonWsAppend(pre, t);
        }
        assert NonWs(CollapseWs(s)) == NonWs(CollapseWs(t)) by {
          assert CollapseWs(s) == [' '] + CollapseWs(t);
          NonWsAppend([' '], CollapseWs(t));
        }
      } else {
        CollapseKeepsText(s[1..]);
        assert NonWs(CollapseWs(s)) == [s[0]] + NonWs(CollapseWs(s[1..])) by {
          assert CollapseWs(s) == [s[0]] + CollapseWs(s[1..]);
          NonWsAppend([s[0]], CollapseWs(s[1..]));
        }
      }
    }
  }

  lemma {:induction false} NonWsAppend(a: string, b: string)
    ensures NonWs(a + b) == NonWs(a) + NonWs(b)
    decreases |a|
  {
    if a == [] {
      assert a + b == b;
    } else {
      assert (a + b)[1..] == a[1..] + b;
      NonWsAppend(a[1..], b);
    }
  }

  lemma {:induction false} NonWsOfWsPrefix(s: string, k: nat)
    requires k <= |s| && AllWs(s[..k])
    ensures NonWs(s[..k]) == []
    decreases k
  {
    if k > 0 {
      assert s[..k][1..] == s[1..][..k - 1];
      NonWsOfWsPrefix(s[1..], k - 1);
    }
  }

  /** `s.replace(/pat/g, rep)` for a literal pattern: occurrences are replaced
      left to right, without overlap. */
  function ReplaceAll(s: string, pat: string, rep: string): (r: string)
    requires |pat| > 0
    ensures |rep| <= |pat| ==> |r| <= |s|
    ensures NoWs(rep) && |rep| > 0 && |r| > 0 && IsWs(r[0]) ==> |s| > 0 && r[0] == s[0]
    ensures NoWs(rep) && SpacesOnly(s) ==> SpacesOnly(r)
    ensures NoWs(rep) && |rep| > 0 && NoDoubleWs(s) ==> NoDoubleWs(r)
    decreases |s|
  {
    if |s| < |pat| then s
    else if s[..|pat|] == pat then rep + ReplaceAll(s[|pat|..], pat, rep)
    else [s[0]] + ReplaceAll(s[1..], pat, rep)
  }

  /** A string without the pattern comes back unchanged. */
  lemma {:induction false} ReplaceAbsent(s: string, pat: string, rep: string)
    requires |pat| > 0
    requires !Contains(s, pat)
    ensures ReplaceAll(s, pat, rep) == s
    decreases |s|
  {
    if |s| >= |pat| {
      assert s[..|pat|] != pat;
      ReplaceAbsent(s[1..], pat, rep);
    }
  }

  /** `s.slice(0, n)` for `n >= 0`. */
  function Take(s: string, n: nat): (r: string)
    ensures |r| == Min(|s|, n)
    ensures r == s[..|r|]
  {
    if |s| <= n then s else s[..n]
  }

  predicate StartsWith(s: string, prefix: string) {
    |prefix| <= |s| && s[..|prefix|] == prefix
  }

  /** `s.includes(p)`. */
  predicate Contains(s: string, p: string)
    decreases |s|
  {
    StartsWith(s, p) || (|s| > 0 && Contains(s[1..], p))
  }

  /** `p` occurs in `s` at position `i`. */
  ghost predicate OccursAt(s: string, p: string, i: int) {
    0 <= i && i + |p| <= |s| && s[i..i + |p|] == p
  }

  /** `s.includes(p)` holds exactly when `p` occurs at some position. */
  lemma {:induction false} ContainsAt(s: string, p: string)
    ensures Contains(s, p) <==> exists i :: OccursAt(s, p, i)
    decreases |s|
  {
    if StartsWith(s, p) {
      assert OccursAt(s, p, 0);
    } else if |s| > 0 {
      ContainsAt(s[1..], p);
      if Contains(s[1..], p) {
        var i :| OccursAt(s[1..], p, i);
        assert s[i + 1..i + 1 + |p|] == s[1..][i..i + |p|];
        assert OccursAt(s, p, i + 1);
      }
      forall i | OccursAt(s, p, i)
        ensures Contains(s[1..], p)
      {
        assert i != 0;
        assert s[1..][i - 1..i - 1 + |p|] == s[i..i + |p|];
        assert OccursAt(s[1..], p, i - 1);
      }
    }
  }

  /** `s.indexOf(c)`: the first position of `c`, or -1. */
  function IndexOf(s: string, c: char): (r: int)
    ensures -1 <= r < |s|
    ensures r == -1 <==> c !in s
    ensures r >= 0 ==> s[r] == c && c !in s[..r]
  {
    if s == [] then -1
    else if s[0] == c then 0
    else var k := IndexOf(s[1..], c); if k == -1 then -1 else k + 1
  }

  /** `s.lastIndexOf(c)`: the last position of `c`, or -1. */
  function LastIndexOf(s: string, c: char): (r: int)
    ensures -1 <= r < |s|
    ensures r == -1 <==> c !in s
    ensures r >= 0 ==> s[r] == c && c !in s[r + 1..]
    decreases |s|
  {
    if s == [] then -1
    else if s[|s| - 1] == c then |s| - 1
    else
      var init := s[..|s| - 1];
      var r := LastIndexOf(init, c);
      assert s == init + [s[|s| - 1]];
      assert r >= 0 ==> s[r + 1..] == init[r + 1..] + [s[|s| - 1]];
      r
  }

  /** ASCII lower-casing: what the `i` flag of a non-Unicode regular
      expression identifies when the pattern is ASCII. */
  function LowerAscii(c: char): char {
    if 'A' <= c <= 'Z' then (c as int + 32) as char else c
  }

  predicate EqualsCI(a: string, b: string) {
    |a| == |b| && forall i :: 0 <= i < |a| ==> LowerAscii(a[i]) == LowerAscii(b[i])
  }

  predicate MatchesAtCI(s: string, pat: string, i: int) {
    0 <= i && i + |pat| <= |s| && EqualsCI(s[i..i + |pat|], pat)
  }

  /** The first position at or after `from` where `pat` occurs, ignoring
      ASCII case. */
  function FindCI(s: string, pat: string, from: nat): (r: Option<nat>)
    ensures r.Some? ==> from <= r.value && MatchesAtCI(s, pat, r.value)
    ensures r.Some? ==> forall j :: from <= j < r.value ==> !MatchesAtCI(s, pat, j)
    ensures r.None? ==> forall j :: from <= j ==> !MatchesAtCI(s, pat, j)
    decreases |s| - from
  {
    if from + |pat| > |s| then None
    else if MatchesAtCI(s, pat, from) then Some(from)
    else FindCI(s, pat, from + 1)
  }

  /** The first position at or after `from` holding `c`. */
  function FindChar(s: string, c: char, from: nat): (r: Option<nat>)
    ensures r.Some? ==> from <= r.value < |s| && s[r.value] == c
    ensures r.Some? ==> forall j :: from <= j < r.value ==> s[j] != c
    ensures r.None? ==> forall j :: from <= j < |s| ==> s[j] != c
    decreases |s| - from
  {
    if from >= |s| then None
    else if s[from] == c then Some(from)
    else FindChar(s, c, from + 1)
  }

  /** `s.split(sep)` for a one-character separator. */
  function Split(s: string, sep: char): (parts: seq<string>)
    ensures |parts| >= 1
    ensures forall i :: 0 <= i < |parts| ==> sep !in parts[i]
    decreases |s|
  {
    if s == [] then [[]]
    else
      var rest := Split(s[1..], sep);
      if s[0] == sep then [[]] + rest else [[s[0]] + rest[0]] + rest[1..]
  }

  /** `parts.join(sep)`. */
  function Join(parts: seq<string>, sep: char): string
    decreases |parts|
  {
    if |parts| == 0 then []
    else if |parts| == 1 then parts[0]
    else parts[0] + [sep] + Join(parts[1..], sep)
  }

  /** Joining the pieces of a split gives the string back. */
  lemma {:induction false} JoinSplit(s: string, sep: char)
    ensures Join(Split(s, sep), sep) == s
    decreases |s|
  {
    if s != [] {
      JoinSplit(s[1..], sep);
      var rest := Split(s[1..], sep);
      if s[0] == sep {
        assert Split(s, sep) == [[]] + rest;
        assert Join([[]] + rest, sep) == [] + [sep] + Join(rest, sep);
      } else {
        var parts := [[s[0]] + rest[0]] + rest[1..];
        assert Split(s, sep) == parts;
        if |rest| == 1 {
          assert Join(parts, sep) == [s[0]] + rest[0];
        } else {
          assert Join(rest, sep) == rest[0] + [sep] + Join(rest[1..], sep);
          assert parts[1..] == rest[1..];
          assert Join(parts, sep) == [s[0]] + rest[0] + [sep] + Join(rest[1..], sep);
        }
      }
    }
  }

  /** Splitting a join of separator-free pieces gives the pieces back. */
  lemma {:induction false} SplitJoin(parts: seq<string>, sep: char)
    requires |parts| >= 1
    requires forall i :: 0 <= i < |parts| ==> sep !in parts[i]
    ensures Split(Join(parts, sep), sep) == parts
    decreases |parts|
  {
    if |parts| == 1 {
      assert Join(parts, sep) == parts[0] + [];
      SplitPlain(parts[0], [], sep);
    } else {
      var t := [sep] + Join(parts[1..], sep);
      assert Join(parts, sep) == parts[0] + t;
      SplitPlain(parts[0], t, sep);
      assert t[1..] == Join(parts[1..], sep);
      SplitJoin(parts[1..], sep);
      assert [parts[0]] + parts[1..] == parts;
    }
  }

  /** A separator-free head `p` in front of `[sep] + t` (or of nothing)
      becomes the first piece. */
  lemma {:induction false} SplitPlain(p: string, t: string, sep: char)
    requires sep !in p
    ensures t == [] ==> Split(p + t, sep) == [p]
    ensures |t| > 0 && t[0] == sep ==> Split(p + t, sep) == [p] + Split(t[1..], sep)
    decreases |p|
  {
    if p == [] {
      assert p + t == t;
    } else {
      assert (p + t)[1..] == p[1..] + t;
      SplitPlain(p[1..], t, sep);
      assert [p[0]] + p[1..] == p;
    }
  }

  function DigitChar(d: nat): (c: char)
    requires d < 10
    ensures '0' <= c <= '9' && c as int - '0' as int == d
  {
    ('0' as int + d) as char
  }

  /** `String(n)` for a non-negative integer. */
  function NatToString(n: nat): (r: string)
    ensures |r| >= 1
    ensures forall i :: 0 <= i < |r| ==> '0' <= r[i] <= '9'
    decreases n
  {
    if n < 10 then [DigitChar(n)] else NatToString(n / 10) + [DigitChar(n % 10)]
  }

  /** `String(n)` for an integer. */
  function IntToString(n: int): (r: string)
    ensures |r| >= 1
    ensures (r[0] == '-') <==> n < 0
  {
    if n < 0 then "-" + NatToString(-n) else NatToString(n)
  }

  /** Reads a string of decimal digits back as a number. */
  function ParseDigits(s: string): nat
    requires forall i :: 0 <= i < |s| ==> '0' <= s[i] <= '9'
    decreases |s|
  {
    if s == [] then 0 else ParseDigits(s[..|s| - 1]) * 10 + (s[|s| - 1] as int - '0' as int)
  }

  /** Decimal formatting loses nothing. */
  lemma {:induction false} NatToStringRoundTrip(n: nat)
    ensures ParseDigits(NatToString(n)) == n
    decreases n
  {
    var r := NatToString(n);
    if n >= 10 {
      var init := NatToString(n / 10);
      assert r == init + [DigitChar(n % 10)];
      assert r[..|r| - 1] == init;
      NatToStringRoundTrip(n / 10);
      assert ParseDigits(r) == ParseDigits(init) * 10 + n % 10;
    } else {
      assert r == [DigitChar(n)] && r[..0] == [];
    }
  }
}
