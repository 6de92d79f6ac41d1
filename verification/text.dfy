/** The Python string and `os.path` operations the modelled code relies on:
    `split`, `replace`, `endswith`, `removesuffix`, `lower`, `in`,
    `os.path.basename`, `os.path.join`, `os.path.splitext` and `float()` on
    decimal text. Paths are POSIX paths compared as text. */
module Text {
  import opened Wrappers

  predicate StartsWith(s: string, prefix: string) {
    |prefix| <= |s| && s[..|prefix|] == prefix
  }

  predicate EndsWith(s: string, suffix: string) {
    |suffix| <= |s| && s[|s| - |suffix|..] == suffix
  }

  /** `pat` occurs in `s` starting at position `k`. */
  predicate MatchAt(s: string, pat: string, k: nat) {
    k + |pat| <= |s| && s[k..k + |pat|] == pat
  }

  /** Position of the first occurrence of `pat` in `s` (Python `str.find`). */
  function IndexOf(s: string, pat: string): (r: Option<nat>)
    ensures r.Some? ==> MatchAt(s, pat, r.value)
    ensures r.Some? ==> forall k: nat :: k < r.value ==> !MatchAt(s, pat, k)
    ensures r.None? ==> forall k: nat :: !MatchAt(s, pat, k)
    decreases |s|
  {
    if |pat| > |s| then None
    else if s[..|pat|] == pat then Some(0)
    else
      match IndexOf(s[1..], pat)
      case None =>
        assert forall k: nat :: MatchAt(s, pat, k + 1) ==> MatchAt(s[1..], pat, k);
        assert !MatchAt(s, pat, 0);
        assert forall k: nat :: k >= 1 ==> (MatchAt(s, pat, k) ==> MatchAt(s[1..], pat, k - 1));
        None
      case Some(k) =>
        assert MatchAt(s[1..], pat, k) ==> MatchAt(s, pat, k + 1) by {
          if MatchAt(s[1..], pat, k) {
            assert s[1..][k..k + |pat|] == s[k + 1..k + 1 + |pat|];
          }
        }
        assert forall m: nat :: 1 <= m < k + 1 ==> (MatchAt(s, pat, m) ==> MatchAt(s[1..], pat, m - 1));
        Some(k + 1)
  }

  /** Python `pat in s`. */
  predicate Contains(s: string, pat: string) {
    IndexOf(s, pat).Some?
  }

  /** Python `s.replace(a, b)` for single characters. */
  function ReplaceChar(s: string, a: char, b: char): (r: string)
    ensures |r| == |s|
    ensures a != b ==> a !in r
    ensures forall k :: 0 <= k < |s| && s[k] != a ==> r[k] == s[k]
    ensures forall k :: 0 <= k < |s| && s[k] == a ==> r[k] == b
  {
    seq(|s|, k requires 0 <= k < |s| => if s[k] == a then b else s[k])
  }

  /** Index of the first `c` in `s`. */
  function FirstIndex(s: string, c: char): (k: nat)
    requires c in s
    ensures k < |s| && s[k] == c && c !in s[..k]
  {
    if s[0] == c then 0 else FirstIndex(s[1..], c) + 1
  }

  /** The segments joined back with the separator (Python `c.join(parts)`). */
  function JoinWith(parts: seq<string>, c: char): string
    requires |parts| >= 1
  {
    if |parts| == 1 then parts[0] else parts[0] + [c] + JoinWith(parts[1..], c)
  }

  /** Python `s.split(c)` for a single-character separator. */
  function Split(s: string, c: char): (parts: seq<string>)
    ensures |parts| >= 1
    ensures forall k :: 0 <= k < |parts| ==> c !in parts[k]
    ensures JoinWith(parts, c) == s
    ensures c !in s ==> parts == [s]
    decreases |s|
  {
    if c !in s then [s]
    else
      var k := FirstIndex(s, c);
      var rest := Split(s[k + 1..], c);
      assert s == s[..k] + [c] + s[k + 1..];
      [s[..k]] + rest
  }

  function Last<T>(xs: seq<T>): T
    requires |xs| > 0
  {
    xs[|xs| - 1]
  }

  /** Python `s.removesuffix(suffix)`. */
  function RemoveSuffix(s: string, suffix: string): (r: string)
    ensures EndsWith(s, suffix) && |suffix| > 0 ==> r + suffix == s
    ensures !EndsWith(s, suffix) ==> r == s
  {
    if |suffix| > 0 && EndsWith(s, suffix) then s[..|s| - |suffix|] else s
  }

  function LowerChar(c: char): char {
    if 'A' <= c <= 'Z' then (c as int + 32) as char else c
  }

  /** Python `s.lower()` on ASCII letters. */
  function Lower(s: string): (r: string)
    ensures |r| == |s|
    ensures forall k :: 0 <= k < |s| ==> r[k] == LowerChar(s[k])
  {
    seq(|s|, k requires 0 <= k < |s| => LowerChar(s[k]))
  }

  /** Everything after the last `c` (all of `s` when there is none). */
  function AfterLast(s: string, c: char): (r: string)
    ensures c !in r
    ensures EndsWith(s, r)
    ensures c !in s ==> r == s
  {
    if |s| == 0 then ""
    else if s[|s| - 1] == c then ""
    else
      var r := AfterLast(s[..|s| - 1], c) + [s[|s| - 1]];
      assert s[|s| - |r|..] == s[..|s| - 1][|s| - |r|..] + [s[|s| - 1]];
      r
  }

  /** `os.path.basename`: the text after the last `/`. */
  function Basename(p: string): (r: string)
    ensures '/' !in r
    ensures '/' !in p ==> r == p
  {
    AfterLast(p, '/')
  }

  /** `os.path.join(a, b)` for two POSIX components: an absolute `b` replaces
      `a`; otherwise a `/` is inserted unless `a` is empty or already ends in one. */
  function PathJoin(a: string, b: string): string {
    if StartsWith(b, "/") then b
    else if |a| == 0 || EndsWith(a, "/") then a + b
    else a + "/" + b
  }

  predicate AllDots(s: string) {
    forall k :: 0 <= k < |s| ==> s[k] == '.'
  }

  /** Index of the last `c` in `s`. */
  function LastIndex(s: string, c: char): (k: nat)
    requires c in s
    ensures k < |s| && s[k] == c && c !in s[k + 1..]
  {
    if s[|s| - 1] == c then |s| - 1
    else
      assert c in s[..|s| - 1] by {
        var i :| 0 <= i < |s| && s[i] == c;
        assert s[..|s| - 1][i] == c;
      }
      var k := LastIndex(s[..|s| - 1], c);
      assert s[k + 1..] == s[..|s| - 1][k + 1..] + [s[|s| - 1]];
      k
  }

  /** The root that `os.path.splitext` returns for a name without `/`: the text
      before the last `.`, unless only dots precede it (a leading-dot name such
      as `.zip` has no extension). */
  function StemOf(base: string): (r: string)
    ensures |r| <= |base| && StartsWith(base, r)
  {
    if '.' !in base then base
    else
      var d := LastIndex(base, '.');
      if AllDots(base[..d]) then base else base[..d]
  }

  /** Text after a separator does not see what precedes it. */
  lemma {:induction false} AfterLastPastSeparator(a: string, b: string, c: char)
    ensures AfterLast(a + [c] + b, c) == AfterLast(b, c)
    decreases |b|
  {
    var s := a + [c] + b;
    if |b| > 0 && b[|b| - 1] != c {
      assert s[..|s| - 1] == a + [c] + b[..|b| - 1];
      AfterLastPastSeparator(a, b[..|b| - 1], c);
    }
  }

  /** The last segment of `s.split(c)` is the text after the last `c`. */
  lemma {:induction false} LastSegmentIsAfterLast(s: string, c: char)
    ensures Last(Split(s, c)) == AfterLast(s, c)
    decreases |s|
  {
    if c in s {
      var k := FirstIndex(s, c);
      assert s == s[..k] + [c] + s[k + 1..];
      LastSegmentIsAfterLast(s[k + 1..], c);
      AfterLastPastSeparator(s[..k], s[k + 1..], c);
    }
  }

  /** `os.path.basename(os.path.join(d, x))` is `x` for a name `x` without `/`. */
  lemma BasenameOfJoin(d: string, x: string)
    requires '/' !in x
    ensures Basename(PathJoin(d, x)) == x
  {
    assert !StartsWith(x, "/") by {
      if |x| > 0 { assert x[0] != '/'; }
    }
    if |d| == 0 {
      assert PathJoin(d, x) == x;
    } else if EndsWith(d, "/") {
      assert d == d[..|d| - 1] + ['/'];
      assert PathJoin(d, x) == d[..|d| - 1] + ['/'] + x;
      AfterLastPastSeparator(d[..|d| - 1], x, '/');
    } else {
      assert PathJoin(d, x) == d + ['/'] + x;
      AfterLastPastSeparator(d, x, '/');
    }
  }

  /** `os.path.join(a, b)` ends with `b`. */
  lemma JoinEndsWith(a: string, b: string)
    ensures EndsWith(PathJoin(a, b), b)
  {
    var p := PathJoin(a, b);
    assert p[|p| - |b|..] == b;
  }

  lemma EndsWithTransitive(s: string, t: string, u: string)
    requires EndsWith(s, t) && EndsWith(t, u)
    ensures EndsWith(s, u)
  {
    assert s[|s| - |u|..] == s[|s| - |t|..][|t| - |u|..];
  }

  /** The first `c` of `p + [c] + q` is the one after `p` when `p` has none. */
  lemma {:induction false} FirstIndexAfterPrefix(p: string, q: string, c: char)
    requires c !in p
    ensures c in p + [c] + q && FirstIndex(p + [c] + q, c) == |p|
    decreases |p|
  {
    var s := p + [c] + q;
    assert s[|p|] == c;
    if |p| > 0 {
      assert s[0] == p[0];
      assert s[1..] == p[1..] + [c] + q;
      FirstIndexAfterPrefix(p[1..], q, c);
    }
  }

  /** Splitting at a first separator after a separator-free prefix. */
  lemma SplitAfterPrefix(p: string, q: string, c: char)
    requires c !in p
    ensures Split(p + [c] + q, c) == [p] + Split(q, c)
  {
    var s := p + [c] + q;
    FirstIndexAfterPrefix(p, q, c);
    assert s[..|p|] == p && s[|p| + 1..] == q;
  }

  /** The last `c` of `a + [c] + b` is the one after `a` when `b` has none. */
  lemma {:induction false} LastIndexBeforeSuffix(a: string, b: string, c: char)
    requires c !in b
    ensures c in a + [c] + b && LastIndex(a + [c] + b, c) == |a|
    decreases |b|
  {
    var s := a + [c] + b;
    assert s[|a|] == c;
    if |b| > 0 {
      assert s[|s| - 1] == b[|b| - 1];
      assert s[..|s| - 1] == a + [c] + b[..|b| - 1];
      LastIndexBeforeSuffix(a, b[..|b| - 1], c);
    }
  }

  /** `os.path.splitext(x + ext)[0]` is `x` when the extension is a dot
      followed by dot-free text and `x` is not all dots. */
  lemma StemOfExtension(x: string, ext: string)
    requires !AllDots(x) && '.' !in ext
    ensures StemOf(x + ['.'] + ext) == x
  {
    var s := x + ['.'] + ext;
    LastIndexBeforeSuffix(x, ext, '.');
    assert s[..|x|] == x;
  }

  predicate IsDigit(c: char) {
    '0' <= c <= '9'
  }

  predicate AllDigits(s: string) {
    forall k :: 0 <= k < |s| ==> IsDigit(s[k])
  }

  /** The value of a string of decimal digits. */
  function DigitsValue(s: string): nat
    requires AllDigits(s)
  {
    if |s| == 0 then 0
    else DigitsValue(s[..|s| - 1]) * 10 + (s[|s| - 1] as int - '0' as int)
  }

  function Pow10(n: nat): (r: nat)
    ensures r >= 1
  {
    if n == 0 then 1 else 10 * Pow10(n - 1)
  }

  /** `float()` on unsigned decimal text: digits with an optional fraction. */
  function ParseUnsigned(s: string): Option<real> {
    if '.' !in s then
      if |s| > 0 && AllDigits(s) then Some(DigitsValue(s) as real) else None
    else
      var k := FirstIndex(s, '.');
      var whole := s[..k];
      var frac := s[k + 1..];
      if (|whole| > 0 || |frac| > 0) && AllDigits(whole) && AllDigits(frac)
      then Some(DigitsValue(whole) as real + DigitsValue(frac) as real / Pow10(|frac|) as real)
      else None
  }

  /** `float()` on decimal text with an optional sign. */
  function ParseDecimal(s: string): Option<real> {
    if |s| > 0 && (s[0] == '-' || s[0] == '+') then
      match ParseUnsigned(s[1..])
      case Some(x) => Some(if s[0] == '-' then -x else x)
      case None => None
    else ParseUnsigned(s)
  }
}
