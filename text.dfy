/**
 * The handful of Python string operations the voice chatbot relies on:
 * substring membership (`p in s`), `s.replace(p, "")`, `s.strip()` and
 * `s.lower()`. Strings are sequences of Unicode scalar values.
 */
module Text {

  /** Python's `str.isspace` for a single character. */
  predicate IsSpace(c: char)
  {
    || c == ' '
    || ('\t' <= c <= '\r')
    || ('\U{1C}' <= c <= '\U{1F}')
    || c == '\U{85}' || c == '\U{A0}' || c == '\U{1680}'
    || ('\U{2000}' <= c <= '\U{200A}')
    || c == '\U{2028}' || c == '\U{2029}' || c == '\U{202F}'
    || c == '\U{205F}' || c == '\U{3000}'
  }

  // ---------------------------------------------------------------------------
  // Substring membership
  // ---------------------------------------------------------------------------

  predicate StartsWith(s: string, p: string)
  {
    |p| <= |s| && s[..|p|] == p
  }

  /** Python's `p in s` for strings; the empty string occurs in every string. */
  predicate Contains(s: string, p: string)
    ensures p == [] ==> Contains(s, p)
    decreases |s|
  {
    StartsWith(s, p) || (|s| > 0 && Contains(s[1..], p))
  }

  /** `p` occurs in `s` starting at index `i`. */
  ghost predicate OccursAt(s: string, p: string, i: int)
  {
    0 <= i && i + |p| <= |s| && s[i..i + |p|] == p
  }

  /** `Contains` finds exactly the strings that occur somewhere in `s`. */
  lemma {:induction false} ContainsIff(s: string, p: string)
    ensures Contains(s, p) <==> exists i :: OccursAt(s, p, i)
    decreases |s|
  {
    if StartsWith(s, p) {
      assert OccursAt(s, p, 0);
    } else if |s| > 0 {
      ContainsIff(s[1..], p);
      if Contains(s[1..], p) {
        var j :| OccursAt(s[1..], p, j);
        assert s[j + 1..j + 1 + |p|] == s[1..][j..j + |p|];
        assert OccursAt(s, p, j + 1);
      }
      forall i | OccursAt(s, p, i) && i > 0 ensures Contains(s[1..], p) {
        assert s[1..][i - 1..i - 1 + |p|] == s[i..i + |p|];
        assert OccursAt(s[1..], p, i - 1);
      }
    }
  }

  /** Only a string no longer than `s` can occur in it. */
  lemma {:induction false} ContainsShorter(s: string, p: string)
    requires Contains(s, p)
    ensures |p| <= |s|
    decreases |s|
  {
    if !StartsWith(s, p) {
      ContainsShorter(s[1..], p);
    }
  }

  /** A non-empty string occurs only where its first character does. */
  lemma {:induction false} ContainsFirstChar(s: string, p: string)
    requires p != [] && Contains(s, p)
    ensures p[0] in s
    decreases |s|
  {
    if StartsWith(s, p) {
      assert s[0] == s[..|p|][0];
    } else {
      ContainsFirstChar(s[1..], p);
      assert forall c :: c in s[1..] ==> c in s;
    }
  }

  // ---------------------------------------------------------------------------
  // Removal of every occurrence
  // ---------------------------------------------------------------------------

  /**
   * Python's `s.replace(p, "")`: scanning left to right, every
   * non-overlapping occurrence of `p` is dropped.
   */
  function RemoveAll(s: string, p: string): (r: string)
    requires p != []
    ensures |r| <= |s|
    ensures multiset(r) <= multiset(s)
    ensures Contains(s, p) <==> |r| < |s|
    ensures Contains(s, p) ==> |r| <= |s| - |p|
    decreases |s|
  {
    if StartsWith(s, p) then
      assert s == p + s[|p|..];
      RemoveAll(s[|p|..], p)
    else if s == [] then
      []
    else
      assert s == [s[0]] + s[1..];
      [s[0]] + RemoveAll(s[1..], p)
  }

  /** Removing a string that does not occur changes nothing. */
  lemma {:induction false} RemoveAllAbsent(s: string, p: string)
    requires p != [] && !Contains(s, p)
    ensures RemoveAll(s, p) == s
    decreases |s|
  {
    if s != [] {
      RemoveAllAbsent(s[1..], p);
    }
  }

  /**
   * One pass of removal can leave the pattern behind: cutting `p` out of
   * `[p[0]] + p + p[1..]` joins the halves around it into a new `p`
   * (for "search": "ssearchearch" becomes "search").
   */
  lemma RemoveAllCanRecreatePattern(p: string)
    requires |p| >= 2 && p[0] != p[1]
    ensures Contains([p[0]] + p + p[1..], p)
    ensures RemoveAll([p[0]] + p + p[1..], p) == p
  {
    var tail := p + p[1..];
    var s := [p[0]] + tail;
    assert s == [p[0]] + p + p[1..];
    assert s[1..] == tail;
    assert tail[..|p|] == p;
    assert Contains(tail, p);
    assert !StartsWith(s, p) by {
      assert s[1] == p[0];
    }
    assert tail[|p|..] == p[1..];
    assert !Contains(p[1..], p) by {
      if Contains(p[1..], p) {
        ContainsShorter(p[1..], p);
      }
    }
    RemoveAllAbsent(p[1..], p);
    RemoveAllSkips(tail, p);
    assert RemoveAll(tail, p) == p[1..];
    RemoveAllKeeps(s, p);
    assert RemoveAll(s, p) == [p[0]] + p[1..];
    assert [p[0]] + p[1..] == p;
  }

  /** Where `p` starts, it is cut out. */
  lemma RemoveAllSkips(s: string, p: string)
    requires p != [] && StartsWith(s, p)
    ensures RemoveAll(s, p) == RemoveAll(s[|p|..], p)
  {
  }

  /** Where `p` does not start, the first character is kept. */
  lemma RemoveAllKeeps(s: string, p: string)
    requires p != [] && s != [] && !StartsWith(s, p)
    ensures RemoveAll(s, p) == [s[0]] + RemoveAll(s[1..], p)
  {
  }

  /**
   * Removal works left to right without overlaps: when the first occurrence
   * of `p` in `x + p + y` is the one after `x`, then `x` is kept whole, that
   * occurrence is cut, and removal carries on in `y`.
   */
  lemma {:induction false} RemoveAllSplit(x: string, p: string, y: string)
    requires p != [] && !Contains(x + p[..|p| - 1], p)
    ensures RemoveAll(x + p + y, p) == x + RemoveAll(y, p)
    decreases |x|
  {
    if x == [] {
      assert x + p + y == p + y;
      RemoveAllFront(p, y);
    } else {
      RemoveAllSplitStep(x, p, y);
      RemoveAllSplit(x[1..], p, y);
      KeepFirst(x, RemoveAll(x + p + y, p), RemoveAll(x[1..] + p + y, p), RemoveAll(y, p));
    }
  }

  /** Keeping the first character of `x` in front of the rest of `x`. */
  lemma KeepFirst(x: string, r: string, rest: string, tail: string)
    requires x != [] && r == [x[0]] + rest && rest == x[1..] + tail
    ensures r == x + tail
  {
    assert x == [x[0]] + x[1..];
  }

  /** An occurrence at the very front is cut. */
  lemma RemoveAllFront(p: string, y: string)
    requires p != []
    ensures RemoveAll(p + y, p) == RemoveAll(y, p)
  {
    var s := p + y;
    assert s[..|p|] == p;
    RemoveAllSkips(s, p);
    assert s[|p|..] == y;
  }

  /** Before the first occurrence, the first character is kept. */
  lemma RemoveAllSplitStep(x: string, p: string, y: string)
    requires p != [] && x != [] && !Contains(x + p[..|p| - 1], p)
    ensures !Contains(x[1..] + p[..|p| - 1], p)
    ensures RemoveAll(x + p + y, p) == [x[0]] + RemoveAll(x[1..] + p + y, p)
  {
    var s := x + p + y;
    var w := x + p[..|p| - 1];
    assert w[1..] == x[1..] + p[..|p| - 1];
    assert |w| >= |p| && s[..|p|] == w[..|p|];
    assert !StartsWith(s, p);
    assert s[1..] == x[1..] + p + y;
    RemoveAllKeeps(s, p);
  }

  // ---------------------------------------------------------------------------
  // Stripping surrounding whitespace
  // ---------------------------------------------------------------------------

  /** Every character of `s` is whitespace. */
  predicate AllSpace(s: string)
  {
    forall k :: 0 <= k < |s| ==> IsSpace(s[k])
  }

  /** Whitespace up to `i` and from `i` on is whitespace throughout. */
  lemma AllSpaceJoin(s: string, i: int)
    requires 0 <= i <= |s|
    requires AllSpace(s[..i]) && AllSpace(s[i..])
    ensures AllSpace(s)
  {
    forall k | 0 <= k < |s| ensures IsSpace(s[k]) {
      if k < i {
        assert s[..i][k] == s[k];
      } else {
        assert s[i..][k - i] == s[k];
      }
    }
  }

  /** `s.lstrip()`: the suffix left after dropping leading whitespace. */
  function TrimStart(s: string): (r: string)
    ensures |r| <= |s| && r == s[|s| - |r|..]
    ensures AllSpace(s[..|s| - |r|])
    ensures r == [] || !IsSpace(r[0])
    decreases |s|
  {
    if |s| > 0 && IsSpace(s[0]) then
      var r := TrimStart(s[1..]);
      assert s[..|s| - |r|] == [s[0]] + s[1..][..|s| - 1 - |r|];
      r
    else
      s
  }

  /** `s.rstrip()`: the prefix left after dropping trailing whitespace. */
  function TrimEnd(s: string): (r: string)
    ensures |r| <= |s| && r == s[..|r|]
    ensures AllSpace(s[|r|..])
    ensures r == [] || !IsSpace(r[|r| - 1])
    decreases |s|
  {
    if |s| > 0 && IsSpace(s[|s| - 1]) then
      var r := TrimEnd(s[..|s| - 1]);
      assert s[|r|..] == s[..|s| - 1][|r|..] + [s[|s| - 1]];
      r
    else
      s
  }

  /** Neither end of `r` is whitespace. */
  predicate IsStripped(r: string)
  {
    r == [] || (!IsSpace(r[0]) && !IsSpace(r[|r| - 1]))
  }

  /** Python's `s.strip()`. */
  function Strip(s: string): (r: string)
    ensures |r| <= |s|
    ensures IsStripped(r)
  {
    TrimEnd(TrimStart(s))
  }

  /**
   * `r` is `s` with the whitespace before index `i` and after `i + |r|`
   * removed, and `r` itself neither starts nor ends with whitespace.
   */
  ghost predicate IsStripOf(s: string, r: string, i: int)
  {
    && 0 <= i && i + |r| <= |s|
    && r == s[i..i + |r|]
    && AllSpace(s[..i])
    && AllSpace(s[i + |r|..])
    && IsStripped(r)
  }

  /**
   * A suffix `t` of `s` past leading whitespace, cut down to a prefix `r`
   * before trailing whitespace, is a strip of `s`.
   */
  lemma TrimmedIsStripOf(s: string, t: string, r: string)
    requires |t| <= |s| && t == s[|s| - |t|..] && AllSpace(s[..|s| - |t|])
    requires t == [] || !IsSpace(t[0])
    requires |r| <= |t| && r == t[..|r|] && AllSpace(t[|r|..])
    requires r == [] || !IsSpace(r[|r| - 1])
    ensures IsStripOf(s, r, |s| - |t|)
  {
    var i := |s| - |t|;
    assert t[..|r|] == s[i..i + |r|];
    assert t[|r|..] == s[i + |r|..];
    assert r != [] ==> r[0] == t[0];
  }

  /** `Strip` cuts whitespace off both ends and nothing else. */
  lemma StripIsStripOf(s: string)
    ensures IsStripOf(s, Strip(s), |s| - |TrimStart(s)|)
  {
    TrimmedIsStripOf(s, TrimStart(s), Strip(s));
  }

  /**
   * When `s` is whitespace up to index `i` and `s[i]`, if any, is not,
   * `lstrip()` keeps exactly `s[i..]`.
   */
  lemma {:induction false} TrimStartAt(s: string, i: int)
    requires 0 <= i <= |s|
    requires AllSpace(s[..i])
    requires i == |s| || !IsSpace(s[i])
    ensures TrimStart(s) == s[i..]
    decreases i
  {
    if i > 0 {
      var rest := s[1..];
      assert s[..i][0] == s[0];
      assert rest[..i - 1] == s[..i][1..];
      assert i - 1 == |rest| || rest[i - 1] == s[i];
      TrimStartAt(rest, i - 1);
      assert rest[i - 1..] == s[i..];
    }
  }

  /**
   * When `s` is whitespace from index `j` on and `s[j - 1]`, if any, is not,
   * `rstrip()` keeps exactly `s[..j]`.
   */
  lemma {:induction false} TrimEndAt(s: string, j: int)
    requires 0 <= j <= |s|
    requires AllSpace(s[j..])
    requires j == 0 || !IsSpace(s[j - 1])
    ensures TrimEnd(s) == s[..j]
    decreases |s| - j
  {
    if j < |s| {
      var init := s[..|s| - 1];
      assert s[j..][|s| - 1 - j] == s[|s| - 1];
      assert init[j..] == s[j..][..|s| - 1 - j];
      assert j == 0 || init[j - 1] == s[j - 1];
      TrimEndAt(init, j);
      assert init[..j] == s[..j];
    }
  }

  /** After the leading whitespace is gone, `rstrip()` leaves `r`. */
  lemma TrimEndAfter(s: string, r: string, i: int)
    requires IsStripOf(s, r, i) && r != []
    ensures TrimEnd(s[i..]) == r
  {
    var t := s[i..];
    assert t[|r|..] == s[i + |r|..];
    assert t[|r| - 1] == r[|r| - 1];
    TrimEndAt(t, |r|);
    assert t[..|r|] == r;
  }

  /** There is only one way to strip a string: `Strip` is it. */
  lemma StripUnique(s: string, r: string, i: int)
    requires IsStripOf(s, r, i)
    ensures r == Strip(s)
  {
    if r == [] {
      AllSpaceJoin(s, i);
      assert s[..|s|] == s;
      TrimStartAt(s, |s|);
    } else {
      assert s[i] == r[0];
      TrimStartAt(s, i);
      TrimEndAfter(s, r, i);
    }
  }

  /** Stripping twice is stripping once. */
  lemma StripIdempotent(s: string)
    ensures Strip(Strip(s)) == Strip(s)
  {
    var r := Strip(s);
    assert IsStripOf(r, r, 0) by {
      assert r[0..|r|] == r;
    }
    StripUnique(r, r, 0);
  }

  /** `strip()` yields the empty string exactly for all-whitespace input. */
  lemma StripEmptyIff(s: string)
    ensures Strip(s) == [] <==> AllSpace(s)
  {
    StripIsStripOf(s);
    if Strip(s) == [] {
      AllSpaceJoin(s, |s| - |TrimStart(s)|);
    }
    if AllSpace(s) {
      assert s[0..] == s;
      assert IsStripOf(s, [], 0);
      StripUnique(s, [], 0);
    }
  }

  // ---------------------------------------------------------------------------
  // Lower-casing
  // ---------------------------------------------------------------------------

  predicate IsUpper(c: char)
  {
    'A' <= c <= 'Z'
  }

  function LowerChar(c: char): (d: char)
    ensures !IsUpper(d)
    ensures IsUpper(c) ==> d as int == c as int + 32
    ensures !IsUpper(c) ==> d == c
  {
    if IsUpper(c) then (c as int + 32) as char else c
  }

  /** Python's `s.lower()`, on the ASCII letters. */
  function Lower(s: string): (r: string)
    ensures |r| == |s|
    ensures forall i :: 0 <= i < |s| ==> r[i] == LowerChar(s[i])
    ensures IsLower(r)
  {
    seq(|s|, i requires 0 <= i < |s| => LowerChar(s[i]))
  }

  /** No ASCII capital letter in `s`. */
  predicate IsLower(s: string)
  {
    forall i :: 0 <= i < |s| ==> !IsUpper(s[i])
  }

  /** Lower-cased text is left alone by `lower()`. */
  lemma LowerFixesLower(s: string)
    requires IsLower(s)
    ensures Lower(s) == s
  {
  }

  /** `lower()` is idempotent. */
  lemma LowerIdempotent(s: string)
    ensures Lower(Lower(s)) == Lower(s)
  {
    LowerFixesLower(Lower(s));
  }
}
