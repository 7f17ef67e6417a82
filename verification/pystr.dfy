/** The handful of Python string built-ins the scripts rely on:
    `s.split("/")`, `str(n)` for a natural number, the slice `s[-k:]`,
    and `s.replace(old, new)`. */
module PyStr {

  const Slash: char := '/'

  // ---------------------------------------------------------------------
  // split("/") and its inverse "/".join(...)
  // ---------------------------------------------------------------------

  /** Number of '/' characters in `s`. */
  function SlashCount(s: string): nat
    decreases |s|
  {
    if |s| == 0 then 0
    else (if s[0] == Slash then 1 else 0) + SlashCount(s[1..])
  }

  /** Python's `s.split("/")`: every '/' separates two segments, so empty
      segments are kept and the empty string splits into `[""]`. */
  function Split(s: string): (segs: seq<string>)
    ensures |segs| == SlashCount(s) + 1
    ensures forall k :: 0 <= k < |segs| ==> Slash !in segs[k]
    decreases |s|
  {
    if |s| == 0 then [""]
    else
      var rest := Split(s[1..]);
      if s[0] == Slash then [""] + rest
      else [[s[0]] + rest[0]] + rest[1..]
  }

  /** Python's `"/".join(segs)`. */
  function Join(segs: seq<string>): string
    decreases |segs|
  {
    if |segs| == 0 then ""
    else if |segs| == 1 then segs[0]
    else segs[0] + [Slash] + Join(segs[1..])
  }

  /** Joining the pieces of a split gives back the original string. */
  lemma {:induction false} JoinSplit(s: string)
    ensures Join(Split(s)) == s
    decreases |s|
  {
    if |s| > 0 {
      var rest := Split(s[1..]);
      JoinSplit(s[1..]);
      if s[0] == Slash {
        assert ([""] + rest)[1..] == rest;
      } else {
        var segs := [[s[0]] + rest[0]] + rest[1..];
        assert segs == Split(s);
        if |rest| == 1 {
          assert Join(rest) == rest[0];
        } else {
          assert segs[1..] == rest[1..];
          assert Join(rest) == rest[0] + [Slash] + Join(rest[1..]);
          assert Join(segs) == [s[0]] + rest[0] + [Slash] + Join(rest[1..]);
        }
        assert s == [s[0]] + s[1..];
      }
    }
  }

  /** A string without '/' is a single segment. */
  lemma {:induction false} SplitNoSlash(a: string)
    requires Slash !in a
    ensures Split(a) == [a]
    decreases |a|
  {
    if |a| > 0 {
      assert Slash !in a[1..] by {
        forall c | c in a[1..] ensures c != Slash {
          var k :| 0 <= k < |a[1..]| && a[1..][k] == c;
          assert a[k + 1] == c;
        }
      }
      SplitNoSlash(a[1..]);
      assert a == [a[0]] + a[1..];
    }
  }

  /** A '/'-free head followed by '/' splits off as one segment. */
  lemma {:induction false} SplitCons(a: string, t: string)
    requires Slash !in a
    ensures Split(a + [Slash] + t) == [a] + Split(t)
    decreases |a|
  {
    var s := a + [Slash] + t;
    if |a| == 0 {
      assert s[0] == Slash && s[1..] == t;
    } else {
      assert Slash !in a[1..] by {
        forall c | c in a[1..] ensures c != Slash {
          var k :| 0 <= k < |a[1..]| && a[1..][k] == c;
          assert a[k + 1] == c;
        }
      }
      assert s[0] == a[0] && a[0] != Slash;
      assert s[1..] == a[1..] + [Slash] + t;
      SplitCons(a[1..], t);
      assert a == [a[0]] + a[1..];
    }
  }

  /** Splitting a join of '/'-free segments gives back the segments. */
  lemma {:induction false} SplitJoin(segs: seq<string>)
    requires |segs| > 0
    requires forall k :: 0 <= k < |segs| ==> Slash !in segs[k]
    ensures Split(Join(segs)) == segs
    decreases |segs|
  {
    if |segs| == 1 {
      SplitNoSlash(segs[0]);
    } else {
      SplitJoin(segs[1..]);
      SplitCons(segs[0], Join(segs[1..]));
      assert segs == [segs[0]] + segs[1..];
    }
  }

  // ---------------------------------------------------------------------
  // str(n) for a natural number, and reading a decimal string back
  // ---------------------------------------------------------------------

  predicate IsDigit(c: char)
  {
    '0' <= c <= '9'
  }

  predicate AllDigits(s: string)
  {
    forall k :: 0 <= k < |s| ==> IsDigit(s[k])
  }

  function DigitChar(d: nat): (c: char)
    requires d < 10
    ensures IsDigit(c)
  {
    (('0' as int) + d) as char
  }

  function DigitValue(c: char): (d: nat)
    requires IsDigit(c)
    ensures d < 10
  {
    (c as int) - ('0' as int)
  }

  /** Python's `str(n)` for `n >= 0`: decimal digits, no leading zero. */
  function NatToDecimal(n: nat): (s: string)
    ensures |s| >= 1 && AllDigits(s)
    ensures s[|s| - 1] == DigitChar(n % 10)
    ensures |s| > 1 ==> s[0] != '0'
    decreases n
  {
    if n < 10 then [DigitChar(n)]
    else NatToDecimal(n / 10) + [DigitChar(n % 10)]
  }

  /** The number a string of decimal digits denotes (`int(s)`, with the
      empty string read as 0). */
  function ParseDecimal(s: string): nat
    requires AllDigits(s)
    decreases |s|
  {
    if |s| == 0 then 0
    else ParseDecimal(s[..|s| - 1]) * 10 + DigitValue(s[|s| - 1])
  }

  /** `int(str(n)) == n`. */
  lemma {:induction false} ParseNatToDecimal(n: nat)
    ensures ParseDecimal(NatToDecimal(n)) == n
    decreases n
  {
    var s := NatToDecimal(n);
    if n < 10 {
      assert s[..0] == [];
    } else {
      ParseNatToDecimal(n / 10);
      assert s[..|s| - 1] == NatToDecimal(n / 10);
    }
  }

  // ---------------------------------------------------------------------
  // s[-k:]
  // ---------------------------------------------------------------------

  /** Python's slice `s[-k:]`: the last `k` characters, or all of `s` when
      it is shorter than `k`. Since `-0` is `0`, `s[-0:]` is all of `s`. */
  function LastChars(s: string, k: nat): (r: string)
    ensures k == 0 ==> r == s
    ensures 0 < k <= |s| ==> |r| == k
    ensures k > |s| ==> r == s
    ensures s == s[..|s| - |r|] + r
  {
    if k == 0 || |s| < k then s else s[|s| - k..]
  }

  // ---------------------------------------------------------------------
  // s.replace(old, new)
  // ---------------------------------------------------------------------

  /** `pattern` starts at index `i` of `s`. */
  predicate OccursAt(s: string, i: nat, pattern: string)
  {
    i + |pattern| <= |s| && s[i..i + |pattern|] == pattern
  }

  /** Python's `s.replace(pattern, replacement)` for a non-empty pattern:
      scanning left to right, every non-overlapping occurrence is
      replaced. */
  function ReplaceAll(s: string, pattern: string, replacement: string): string
    requires |pattern| > 0
    decreases |s|
  {
    if |s| < |pattern| then s
    else if s[..|pattern|] == pattern then
      replacement + ReplaceAll(s[|pattern|..], pattern, replacement)
    else [s[0]] + ReplaceAll(s[1..], pattern, replacement)
  }

  /** One step of the scan: a string that does not start with the pattern
      keeps its first character. */
  lemma ReplaceStep(s: string, pattern: string, replacement: string)
    requires |pattern| > 0 && |s| >= |pattern|
    requires !OccursAt(s, 0, pattern)
    ensures ReplaceAll(s, pattern, replacement) == [s[0]] + ReplaceAll(s[1..], pattern, replacement)
  {
    assert s[0..|pattern|] == s[..|pattern|];
  }

  /** Dropping the first character shifts every occurrence one place left. */
  lemma NoEarlierOccurrence(p: string, pattern: string)
    requires |p| > 0
    requires forall i :: 0 <= i < |p| ==> !OccursAt(p + pattern, i, pattern)
    ensures forall i :: 0 <= i < |p[1..]| ==> !OccursAt(p[1..] + pattern, i, pattern)
  {
    var s := p + pattern;
    forall i | 0 <= i < |p[1..]|
      ensures !OccursAt(p[1..] + pattern, i, pattern)
    {
      assert !OccursAt(s, i + 1, pattern);
      assert p[1..] + pattern == s[1..];
      assert s[1..][i..i + |pattern|] == s[i + 1..i + 1 + |pattern|];
    }
  }

  /** When `pattern` occurs in `p + pattern` only as the suffix, replacing
      it swaps exactly that suffix. */
  lemma {:induction false} ReplaceSuffixOnly(p: string, pattern: string, replacement: string)
    requires |pattern| > 0
    requires forall i :: 0 <= i < |p| ==> !OccursAt(p + pattern, i, pattern)
    ensures ReplaceAll(p + pattern, pattern, replacement) == p + replacement
    decreases |p|
  {
    var s := p + pattern;
    if |p| == 0 {
      assert s == pattern && s[..|pattern|] == pattern;
      assert s[|pattern|..] == [];
    } else {
      ReplaceStep(s, pattern, replacement);
      assert s[1..] == p[1..] + pattern;
      NoEarlierOccurrence(p, pattern);
      ReplaceSuffixOnly(p[1..], pattern, replacement);
      assert p == [p[0]] + p[1..];
    }
  }
}
