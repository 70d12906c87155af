/**
 * The JavaScript string operations the core relies on, over strings of
 * Unicode scalar values: the white-space class of `\s` and `trim()`,
 * `startsWith`/`endsWith`, `join`, `split('\n')` and decimal rendering of
 * a number in a template literal.
 */
module Text {

  /**
   * ECMAScript's WhiteSpace and LineTerminator characters: the set matched by
   * `\s` and removed by `String.prototype.trim`.
   */
  predicate IsSpace(c: char) {
    var n := c as int;
    n == 0x09 || n == 0x0A || n == 0x0B || n == 0x0C || n == 0x0D || n == 0x20
    || n == 0xA0 || n == 0x1680 || (0x2000 <= n <= 0x200A) || n == 0x2028
    || n == 0x2029 || n == 0x202F || n == 0x205F || n == 0x3000 || n == 0xFEFF
  }

  predicate AllSpace(s: string) {
    forall i :: 0 <= i < |s| ==> IsSpace(s[i])
  }

  predicate StartsWith(s: string, prefix: string) {
    |prefix| <= |s| && s[..|prefix|] == prefix
  }

  predicate EndsWith(s: string, suffix: string) {
    |suffix| <= |s| && s[|s| - |suffix|..] == suffix
  }

  /** `s` occurs in `t` starting at position `k`. */
  predicate OccursAt(t: string, s: string, k: int) {
    0 <= k <= |t| - |s| && t[k..k + |s|] == s
  }

  /** `t.includes(s)`. */
  ghost predicate Contains(t: string, s: string) {
    exists k :: OccursAt(t, s, k)
  }

  /** Text found in the middle piece is found in the whole. */
  lemma ContainsInfix(pre: string, mid: string, post: string, x: string)
    requires Contains(mid, x)
    ensures Contains(pre + mid + post, x)
  {
    var k :| OccursAt(mid, x, k);
    var whole := pre + mid + post;
    assert whole[|pre| + k..|pre| + k + |x|] == mid[k..k + |x|];
    assert OccursAt(whole, x, |pre| + k);
  }

  lemma ConcatAssoc(a: string, b: string, c: string)
    ensures a + b + c == a + (b + c)
  {
  }

  /** Every string occurs in itself. */
  lemma ContainsSelf(x: string)
    ensures Contains(x, x)
  {
    assert OccursAt(x, x, 0);
  }

  /** `trimStart()`: the suffix left after the longest white-space prefix. */
  function TrimStart(s: string): (r: string)
    ensures |r| <= |s| && r == s[|s| - |r|..]
    ensures AllSpace(s[..|s| - |r|])
    ensures r == [] || !IsSpace(r[0])
  {
    if s != [] && IsSpace(s[0]) then
      var r := TrimStart(s[1..]);
      assert s[1..][..|s| - 1 - |r|] == s[1..|s| - |r|];
      r
    else s
  }

  /** The suffix after a white-space prefix that stops at a non-space (or the end) is `trimStart()`'s result. */
  lemma {:induction false} TrimStartAt(s: string, k: nat)
    requires k <= |s| && AllSpace(s[..k]) && (k == |s| || !IsSpace(s[k]))
    ensures TrimStart(s) == s[k..]
  {
    if k > 0 {
      assert IsSpace(s[..k][0]);
      assert s[1..][..k - 1] == s[..k][1..];
      TrimStartAt(s[1..], k - 1);
    }
  }

  /** Text after a run that stops inside `x` is unaffected: `trimStart()` of `x + y` keeps all of `y`. */
  lemma TrimStartAppend(x: string, y: string)
    requires !AllSpace(x)
    ensures TrimStart(x) != [] && TrimStart(x + y) == TrimStart(x) + y
  {
    var t := TrimStart(x);
    assert x[..|x|] == x;
    TrimStartAppendAt(x, y, |x| - |t|);
  }

  lemma TrimStartAppendAt(x: string, y: string, k: nat)
    requires k < |x| && AllSpace(x[..k]) && !IsSpace(x[k])
    ensures TrimStart(x + y) == x[k..] + y
  {
    assert (x + y)[..k] == x[..k];
    assert (x + y)[k] == x[k];
    TrimStartAt(x + y, k);
    assert (x + y)[k..] == x[k..] + y;
  }

  /** `trimEnd()`: the prefix left after the longest white-space suffix. */
  function TrimEnd(s: string): (r: string)
    ensures |r| <= |s| && r == s[..|r|]
    ensures AllSpace(s[|r|..])
    ensures r == [] || !IsSpace(r[|r| - 1])
  {
    if s != [] && IsSpace(s[|s| - 1]) then
      var r := TrimEnd(s[..|s| - 1]);
      assert s[..|s| - 1][|r|..] == s[|r|..|s| - 1];
      r
    else s
  }

  /** `trim()`. */
  function Trim(s: string): (r: string)
  {
    TrimEnd(TrimStart(s))
  }

  /**
   * `trim()` removes white space at both ends and nothing else: the result is
   * a contiguous piece of `s`, and everything cut away on either side is
   * white space.
   */
  lemma TrimShape(s: string) returns (a: nat)
    ensures var r := Trim(s); a + |r| <= |s| && r == s[a..a + |r|] && AllSpace(s[..a]) && AllSpace(s[a + |r|..])
  {
    a := |s| - |TrimStart(s)|;
    TrimPieces(s, TrimStart(s), Trim(s), a);
  }

  /** A trimmed string neither starts nor ends with white space. */
  lemma TrimEnds(s: string)
    ensures Trim(s) == [] || (!IsSpace(Trim(s)[0]) && !IsSpace(Trim(s)[|Trim(s)| - 1]))
  {
    var t := TrimStart(s);
    var r := TrimEnd(t);
    if r != [] {
      assert r[0] == t[0];
    }
  }

  /** A prefix `r` of the suffix `t` of `s` that starts at `a` is the slice of `s` at `a`. */
  lemma TrimPieces(s: string, t: string, r: string, a: nat)
    requires a <= |s| && t == s[a..] && AllSpace(s[..a]) && |r| <= |t| && r == t[..|r|] && AllSpace(t[|r|..])
    ensures a + |r| <= |s| && r == s[a..a + |r|] && AllSpace(s[..a]) && AllSpace(s[a + |r|..])
  {
    assert s[a + |r|..] == t[|r|..];
  }

  /** A string trims to nothing exactly when it is all white space. */
  lemma TrimEmptyIffAllSpace(s: string)
    ensures Trim(s) == [] <==> AllSpace(s)
  {
    var t := TrimStart(s);
    var a := |s| - |t|;
    if Trim(s) == [] {
      assert t[0..] == t;
      assert t == [];
      assert s[..a] == s;
    } else if t != [] {
      assert t[0] == s[a];
    }
  }

  /** Trimming twice is trimming once. */
  lemma TrimIdempotent(s: string)
    ensures Trim(Trim(s)) == Trim(s)
  {
    TrimEnds(s);
  }

  /** `parts.join(sep)`. */
  function Join(parts: seq<string>, sep: string): string
  {
    if |parts| == 0 then ""
    else if |parts| == 1 then parts[0]
    else parts[0] + sep + Join(parts[1..], sep)
  }

  /** Every part occurs in the joined string. */
  lemma {:induction false} JoinContainsParts(parts: seq<string>, sep: string, i: nat)
    requires i < |parts|
    ensures Contains(Join(parts, sep), parts[i])
  {
    if |parts| == 1 || i == 0 {
      ContainsSelf(parts[0]);
      if |parts| > 1 {
        ContainsInfix([], parts[0], sep + Join(parts[1..], sep), parts[0]);
        assert [] + parts[0] + (sep + Join(parts[1..], sep)) == Join(parts, sep);
      } else {
        ContainsInfix([], parts[0], [], parts[0]);
        assert [] + parts[0] + [] == Join(parts, sep);
      }
    } else {
      JoinContainsParts(parts[1..], sep, i - 1);
      ContainsInfix(parts[0] + sep, Join(parts[1..], sep), [], parts[i]);
      assert (parts[0] + sep) + Join(parts[1..], sep) + [] == Join(parts, sep);
    }
  }

  /** The index of the first occurrence of `c` in `s`. */
  function IndexOf(s: string, c: char): (k: nat)
    requires c in s
    ensures k < |s| && s[k] == c && c !in s[..k]
  {
    if s[0] == c then 0
    else
      var k := IndexOf(s[1..], c);
      assert s[1..][..k] == s[1..k + 1];
      k + 1
  }

  /** `s.split('\n')`: at least one piece, none holding a line feed. */
  function SplitLines(s: string): (r: seq<string>)
    ensures |r| >= 1
    ensures forall i :: 0 <= i < |r| ==> '\n' !in r[i]
    decreases |s|
  {
    if '\n' !in s then [s]
    else
      var k := IndexOf(s, '\n');
      [s[..k]] + SplitLines(s[k + 1..])
  }

  /** Splitting at line feeds and joining the pieces with line feeds gives back the text. */
  lemma {:induction false} JoinSplitLines(s: string)
    ensures Join(SplitLines(s), "\n") == s
    decreases |s|
  {
    if '\n' in s {
      var k := IndexOf(s, '\n');
      var rest := SplitLines(s[k + 1..]);
      JoinSplitLines(s[k + 1..]);
      JoinCons(s[..k], rest, "\n");
      assert s == s[..k] + "\n" + s[k + 1..];
    }
  }

  /** Joining a first part onto at least one more puts the separator between. */
  lemma JoinCons(x: string, rest: seq<string>, sep: string)
    requires |rest| >= 1
    ensures Join([x] + rest, sep) == x + sep + Join(rest, sep)
  {
    assert ([x] + rest)[1..] == rest;
  }

  function DigitChar(d: nat): (c: char)
    requires d < 10
    ensures '0' <= c <= '9'
  {
    ('0' as int + d) as char
  }

  function DigitValue(c: char): nat
  {
    if '0' <= c <= '9' then (c as int - '0' as int) as nat else 0
  }

  predicate AllDigits(s: string) {
    forall i :: 0 <= i < |s| ==> '0' <= s[i] <= '9'
  }

  /** A number written in a template literal, `${n}`, for a non-negative integer. */
  function NatToString(n: nat): (r: string)
    ensures |r| >= 1 && AllDigits(r)
  {
    if n < 10 then [DigitChar(n)] else NatToString(n / 10) + [DigitChar(n % 10)]
  }

  /** The value of a string of decimal digits, the inverse of `NatToString`. */
  function ParseDecimal(s: string): nat
  {
    if s == [] then 0 else 10 * ParseDecimal(s[..|s| - 1]) + DigitValue(s[|s| - 1])
  }

  lemma {:induction false} ParseNatToString(n: nat)
    ensures ParseDecimal(NatToString(n)) == n
  {
    if n >= 10 {
      var q, d := n / 10, n % 10;
      ParseNatToString(q);
      var s := NatToString(n);
      assert s == NatToString(q) + [DigitChar(d)];
      assert s[..|s| - 1] == NatToString(q);
      assert DigitValue(s[|s| - 1]) == d;
      assert n == 10 * q + d;
    }
  }

  /** Different numbers are written differently. */
  lemma NatToStringInjective(m: nat, n: nat)
    requires NatToString(m) == NatToString(n)
    ensures m == n
  {
    ParseNatToString(m);
    ParseNatToString(n);
  }
}
