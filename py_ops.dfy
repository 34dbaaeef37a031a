/**
 * The few Python built-ins the core relies on, stated over Dafny strings
 * and sequences: `str.strip()`, `str.split(sep)[0]`, `os.path.basename`,
 * `str.endswith`, the `in` test on strings, negative sequence indexing and
 * the decimal rendering of an integer in an f-string.
 */
module PyOps {
  import opened Wrappers

  /** `c.isspace()`: the code points Python's `str.strip()` removes by default. */
  predicate IsSpace(c: char) {
    var n := c as int;
    (0x09 <= n <= 0x0D) || (0x1C <= n <= 0x20) || n == 0x85 || n == 0xA0 || n == 0x1680
    || (0x2000 <= n <= 0x200A) || n == 0x2028 || n == 0x2029 || n == 0x202F
    || n == 0x205F || n == 0x3000
  }

  ghost predicate AllSpace(s: string) {
    forall i :: 0 <= i < |s| ==> IsSpace(s[i])
  }

  /** Neither end of `s` is whitespace. */
  predicate IsStripped(s: string) {
    s == [] || (!IsSpace(s[0]) && !IsSpace(s[|s| - 1]))
  }

  /** The index of the first character of `s` at or after `i` that is not whitespace, or `|s|`. */
  function SkipSpace(s: string, i: nat): (j: nat)
    requires i <= |s|
    ensures i <= j <= |s|
    ensures forall k :: i <= k < j ==> IsSpace(s[k])
    ensures j < |s| ==> !IsSpace(s[j])
    decreases |s| - i
  {
    if i < |s| && IsSpace(s[i]) then SkipSpace(s, i + 1) else i
  }

  /** The index just past the last character of `s[lo..hi]` that is not whitespace, or `lo`. */
  function SkipSpaceBack(s: string, lo: nat, hi: nat): (j: nat)
    requires lo <= hi <= |s|
    ensures lo <= j <= hi
    ensures forall k :: j <= k < hi ==> IsSpace(s[k])
    ensures lo < j ==> !IsSpace(s[j - 1])
    decreases hi - lo
  {
    if lo < hi && IsSpace(s[hi - 1]) then SkipSpaceBack(s, lo, hi - 1) else hi
  }

  /** `s.strip()`: `s` without its leading and trailing whitespace. */
  function Strip(s: string): (r: string)
    ensures IsStripped(r)
  {
    var lo := SkipSpace(s, 0);
    s[lo..SkipSpaceBack(s, lo, |s|)]
  }

  /**
   * What `strip` removes: the result is the infix of `s` that starts at its
   * first non-whitespace character, and only whitespace lies before and
   * after it.
   */
  lemma {:induction false} StripInfix(s: string)
    ensures var k := SkipSpace(s, 0); var r := Strip(s);
      k + |r| <= |s| && s[k..k + |r|] == r && AllSpace(s[..k]) && AllSpace(s[k + |r|..])
  {
    var k := SkipSpace(s, 0);
    var hi := SkipSpaceBack(s, k, |s|);
    SpaceRange(s, 0, k);
    assert s[0..k] == s[..k];
    SpaceRange(s, hi, |s|);
    assert s[hi..|s|] == s[hi..];
  }

  lemma {:induction false} SpaceRange(s: string, lo: nat, hi: nat)
    requires lo <= hi <= |s|
    requires forall i :: lo <= i < hi ==> IsSpace(s[i])
    ensures AllSpace(s[lo..hi])
  {
    forall j | 0 <= j < hi - lo ensures IsSpace(s[lo..hi][j]) {
      assert s[lo..hi][j] == s[lo + j];
    }
  }

  /** `s.strip()` is empty exactly when `s` is all whitespace (or empty). */
  lemma {:induction false} StripEmptyIffBlank(s: string)
    ensures Strip(s) == [] <==> AllSpace(s)
  {
    var k := SkipSpace(s, 0);
    var hi := SkipSpaceBack(s, k, |s|);
    if hi == k {
      forall i | 0 <= i < |s| ensures IsSpace(s[i]) {
      }
    } else {
      assert !IsSpace(s[k]);
    }
  }

  /** Stripping is idempotent: a stripped string is its own strip. */
  lemma {:induction false} StripIdempotent(s: string)
    ensures Strip(Strip(s)) == Strip(s)
  {
    var r := Strip(s);
    assert SkipSpace(r, 0) == 0;
    assert SkipSpaceBack(r, 0, |r|) == |r|;
  }

  /** `s.split(sep)[0]`: the part of `s` before the first `sep`, or all of `s`. */
  function PrefixBefore(s: string, sep: char): (r: string)
    ensures |r| <= |s| && r == s[..|r|]
    ensures sep !in r
    ensures |r| < |s| ==> s[|r|] == sep
  {
    if s == [] || s[0] == sep then [] else [s[0]] + PrefixBefore(s[1..], sep)
  }

  /** `os.path.basename(path)` on POSIX: the part after the last '/'. */
  function Basename(path: string): (r: string)
    ensures |r| <= |path| && r == path[|path| - |r|..]
    ensures '/' !in r
    ensures |r| < |path| ==> path[|path| - |r| - 1] == '/'
  {
    if path == [] || path[|path| - 1] == '/' then []
    else Basename(path[..|path| - 1]) + [path[|path| - 1]]
  }

  /** Joining a directory and a plain file name and taking the basename gives the file name back. */
  lemma {:induction false} BasenameOfJoin(dir: string, name: string)
    requires '/' !in name
    ensures Basename(dir + "/" + name) == name
  {
    if name != [] {
      var last := name[|name| - 1];
      var init := name[..|name| - 1];
      assert dir + "/" + name == (dir + "/" + init) + [last];
      assert (dir + "/" + name)[..|dir + "/" + name| - 1] == dir + "/" + init;
      BasenameOfJoin(dir, init);
      assert init + [last] == name;
    } else {
      assert (dir + "/" + name)[|dir + "/" + name| - 1] == '/';
    }
  }

  /** `s.endswith(suffix)`. */
  predicate EndsWith(s: string, suffix: string) {
    |suffix| <= |s| && s[|s| - |suffix|..] == suffix
  }

  /** `sub in s` for strings: `sub` starts at some position of `s` (the empty string occurs everywhere). */
  predicate Contains(s: string, sub: string)
  {
    |sub| <= |s| && (s[..|sub|] == sub || Contains(s[1..], sub))
  }

  /** `sub` occurs in `s` starting at index `i`. */
  predicate OccursAt(s: string, sub: string, i: nat) {
    i + |sub| <= |s| && s[i..i + |sub|] == sub
  }

  /** An occurrence past the start of `s` is an occurrence in `s[1..]`, one position earlier. */
  lemma {:induction false} OccursShift(s: string, sub: string)
    requires s != []
    ensures forall i: nat :: 0 < i ==> (OccursAt(s, sub, i) <==> OccursAt(s[1..], sub, i - 1))
  {
    forall i: nat | 0 < i ensures OccursAt(s, sub, i) <==> OccursAt(s[1..], sub, i - 1) {
      if i + |sub| <= |s| {
        var a, b := s[i..i + |sub|], s[1..][i - 1..i - 1 + |sub|];
        forall k | 0 <= k < |sub| ensures a[k] == b[k] {
          assert a[k] == s[i + k] == s[1..][i - 1 + k] == b[k];
        }
        assert a == b;
      }
    }
  }

  /** An occurrence of `sub` anywhere in `s` makes `sub in s` hold. */
  lemma {:induction false} ContainsAt(s: string, sub: string, i: nat)
    requires OccursAt(s, sub, i)
    ensures Contains(s, sub)
    decreases i
  {
    if i == 0 {
      assert s[..|sub|] == s[0..|sub|];
    } else if s[..|sub|] != sub {
      OccursShift(s, sub);
      ContainsAt(s[1..], sub, i - 1);
    }
  }

  /** Where `sub` first occurs in `s`, when `sub in s` holds. */
  function Position(s: string, sub: string): (i: nat)
    requires Contains(s, sub)
    ensures OccursAt(s, sub, i)
    ensures forall j: nat :: j < i ==> !OccursAt(s, sub, j)
  {
    assert s[0..|sub|] == s[..|sub|];
    if s[..|sub|] == sub then 0
    else
      OccursShift(s, sub);
      Position(s[1..], sub) + 1
  }

  /** Python indexing `s[i]`: a negative `i` counts from the end; out of range raises IndexError (None here). */
  function PyIndex<T>(s: seq<T>, i: int): (r: Option<T>)
    ensures r.Some? <==> -|s| <= i < |s|
    ensures 0 <= i < |s| ==> r == Some(s[i])
    ensures -|s| <= i < 0 ==> r == Some(s[|s| + i])
  {
    if 0 <= i < |s| then Some(s[i])
    else if -|s| <= i < 0 then Some(s[|s| + i])
    else None
  }

  predicate IsDigits(s: string) {
    forall i :: 0 <= i < |s| ==> '0' <= s[i] <= '9'
  }

  /** The number a string of decimal digits denotes. */
  function DecimalValue(s: string): nat
    requires IsDigits(s)
  {
    if s == [] then 0 else DecimalValue(s[..|s| - 1]) * 10 + (s[|s| - 1] as int - '0' as int)
  }

  /** `f'{n}'` for a non-negative integer: its decimal digits, without leading zeros. */
  function NatToDecimal(n: nat): (r: string)
    ensures r != [] && IsDigits(r)
    ensures r[0] == '0' ==> r == "0"
    ensures DecimalValue(r) == n
  {
    var d := ('0' as int + n % 10) as char;
    if n < 10 then [d]
    else
      var init := NatToDecimal(n / 10);
      var r := init + [d];
      assert r[..|r| - 1] == init;
      r
  }
}
