/** String primitives of the two runtimes the system is written in: Python's
    `str.strip`, `str.lower`, `str.startswith`, `str.replace(old, new, 1)`
    and `in`, and JavaScript's `String.prototype.trim`, `toLowerCase` and the
    default ordering used by `Array.prototype.sort` and SQL `ORDER BY`. */
module Text {

  /** Which runtime a primitive belongs to: the two disagree on whitespace. */
  datatype Runtime = Python | JavaScript

  /** Python's `str.isspace` (for `strip`) and JavaScript's `\s` class (for
      `trim` and regular expressions). Both contain the ASCII controls
      U+0009..U+000D, the space and the Unicode space separators; only Python
      has U+001C..U+001F and U+0085, only JavaScript has U+FEFF. */
  predicate IsSpace(rt: Runtime, c: char) {
    || c == ' '
    || '\t' <= c <= '\r'
    || c == '\U{00a0}' || c == '\U{1680}'
    || '\U{2000}' <= c <= '\U{200a}'
    || c == '\U{2028}' || c == '\U{2029}' || c == '\U{202f}' || c == '\U{205f}' || c == '\U{3000}'
    || (rt == Python && ('\U{001c}' <= c <= '\U{001f}' || c == '\U{0085}'))
    || (rt == JavaScript && c == '\U{feff}')
  }

  predicate AllSpace(rt: Runtime, s: string) {
    forall i :: 0 <= i < |s| ==> IsSpace(rt, s[i])
  }

  /** Drops leading whitespace. */
  function TrimStart(rt: Runtime, s: string): string {
    if s != [] && IsSpace(rt, s[0]) then TrimStart(rt, s[1..]) else s
  }

  /** What `TrimStart` leaves is the suffix of `s` that starts at the first
      non-space character. */
  lemma {:induction false} TrimStartSuffix(rt: Runtime, s: string)
    ensures var r := TrimStart(rt, s);
      && |r| <= |s| && r == s[|s| - |r|..]
      && AllSpace(rt, s[..|s| - |r|])
      && (r == [] || !IsSpace(rt, r[0]))
  {
    if s != [] && IsSpace(rt, s[0]) {
      TrimStartSuffix(rt, s[1..]);
      var r := TrimStart(rt, s[1..]);
      assert s[..|s| - |r|] == [s[0]] + s[1..][..|s| - 1 - |r|];
    }
  }

  /** Drops trailing whitespace. */
  function TrimEnd(rt: Runtime, s: string): string {
    if s != [] && IsSpace(rt, s[|s| - 1]) then TrimEnd(rt, s[..|s| - 1]) else s
  }

  /** What `TrimEnd` leaves is the prefix of `s` that ends at the last
      non-space character. */
  lemma {:induction false} TrimEndPrefix(rt: Runtime, s: string)
    ensures var r := TrimEnd(rt, s);
      && |r| <= |s| && r == s[..|r|]
      && AllSpace(rt, s[|r|..])
      && (r == [] || !IsSpace(rt, r[|r| - 1]))
  {
    if s != [] && IsSpace(rt, s[|s| - 1]) {
      TrimEndPrefix(rt, s[..|s| - 1]);
      var r := TrimEnd(rt, s[..|s| - 1]);
      assert s[|r|..] == s[..|s| - 1][|r|..] + [s[|s| - 1]];
    }
  }

  /** Python `s.strip()` (rt == Python) or JavaScript `s.trim()` (rt == JavaScript). */
  function Strip(rt: Runtime, s: string): (r: string)
    ensures |r| <= |s|
    ensures exists k :: 0 <= k <= |s| - |r| && s[k..k + |r|] == r
                        && AllSpace(rt, s[..k]) && AllSpace(rt, s[k + |r|..])
    ensures r == [] || (!IsSpace(rt, r[0]) && !IsSpace(rt, r[|r| - 1]))
    ensures r == [] <==> AllSpace(rt, s)
  {
    var t := TrimStart(rt, s);
    var r := TrimEnd(rt, t);
    TrimStartSuffix(rt, s);
    TrimEndPrefix(rt, t);
    var k := |s| - |t|;
    assert s[k..k + |r|] == r;
    assert s[..k] == s[..|s| - |t|];
    assert s[k + |r|..] == t[|r|..];
    assert r == [] ==> AllSpace(rt, s) by {
      if r == [] {
        assert t[|r|..] == t;
        assert t == [];
        assert s[..k] == s;
      }
    }
    r
  }

  /** Stripping twice is stripping once. */
  lemma StripIdempotent(rt: Runtime, s: string)
    ensures Strip(rt, Strip(rt, s)) == Strip(rt, s)
  {
    var r := Strip(rt, s);
    if r != [] {
      assert TrimStart(rt, r) == r;
      assert TrimEnd(rt, r) == r;
    } else {
      assert TrimStart(rt, r) == r;
    }
  }

  /** Lower-casing of one character; only the ASCII letters A..Z change. */
  function LowerChar(c: char): char {
    if 'A' <= c <= 'Z' then (c as int + 32) as char else c
  }

  /** Python `str.lower()` / JavaScript `toLowerCase()` on ASCII letters. */
  function Lower(s: string): (r: string)
    ensures |r| == |s|
    ensures forall i :: 0 <= i < |s| ==> r[i] == LowerChar(s[i])
  {
    seq(|s|, i requires 0 <= i < |s| => LowerChar(s[i]))
  }

  /** Lower-casing is idempotent and keeps every non-letter in its place. */
  lemma LowerIdempotent(s: string)
    ensures Lower(Lower(s)) == Lower(s)
  {
  }

  predicate StartsWith(s: string, prefix: string) {
    |prefix| <= |s| && s[..|prefix|] == prefix
  }

  /** Python `sub in s`: `sub` occurs somewhere in `s`. */
  predicate Contains(s: string, sub: string)
    decreases |s|
  {
    StartsWith(s, sub) || (s != [] && Contains(s[1..], sub))
  }

  /** Python `s.replace(pattern, replacement, 1)`: the first occurrence of `pattern` is replaced. */
  function ReplaceFirst(s: string, pattern: string, replacement: string): string
    decreases |s|
  {
    if StartsWith(s, pattern) then replacement + s[|pattern|..]
    else if s == [] then s
    else [s[0]] + ReplaceFirst(s[1..], pattern, replacement)
  }

  /** When `s` starts with `pattern`, Python's single replacement swaps that prefix. */
  lemma ReplaceFirstAtStart(s: string, pattern: string, replacement: string)
    requires StartsWith(s, pattern)
    ensures ReplaceFirst(s, pattern, replacement) == replacement + s[|pattern|..]
  {
  }

  /** Lexicographic order by character code: the order of JavaScript's default
      `sort()` on strings of the Basic Multilingual Plane, and of a binary
      collation in SQL `ORDER BY`. */
  predicate StrLt(a: string, b: string)
    decreases |a|
  {
    if a == [] then b != []
    else if b == [] then false
    else if a[0] != b[0] then a[0] < b[0]
    else StrLt(a[1..], b[1..])
  }

  predicate StrLe(a: string, b: string) {
    a == b || StrLt(a, b)
  }

  lemma {:induction false} StrLtTransitive(a: string, b: string, c: string)
    requires StrLt(a, b) && StrLt(b, c)
    ensures StrLt(a, c)
    decreases |a|
  {
    if a != [] && a[0] == b[0] && b[0] == c[0] {
      StrLtTransitive(a[1..], b[1..], c[1..]);
    }
  }

  lemma {:induction false} StrLtTrichotomy(a: string, b: string)
    ensures a == b || StrLt(a, b) || StrLt(b, a)
    decreases |a|
  {
    if a != [] && b != [] && a[0] == b[0] {
      StrLtTrichotomy(a[1..], b[1..]);
      if a[1..] == b[1..] {
        assert a == [a[0]] + a[1..] && b == [b[0]] + b[1..];
      }
    }
  }

  lemma StrLeTransitive(a: string, b: string, c: string)
    requires StrLe(a, b) && StrLe(b, c)
    ensures StrLe(a, c)
  {
    if a != b && b != c {
      StrLtTransitive(a, b, c);
    }
  }
}
