/** The handful of Python string built-ins the game relies on: lower-casing,
    `strip()`, the `in` substring test, `os.path.commonprefix` of two strings,
    `str * n`, slicing with an integer bound, `str.split(" +")` and
    `' '.join`.  Case mapping is ASCII only; white space is the set that
    Python's `str.isspace` accepts. */
module Text {

  /** ASCII lower-casing of one character. */
  function Lower(c: char): char {
    if 'A' <= c <= 'Z' then (c as int + 32) as char else c
  }

  function LowerStr(s: string): (r: string)
    ensures |r| == |s|
    ensures forall i :: 0 <= i < |s| ==> r[i] == Lower(s[i])
  {
    seq(|s|, i requires 0 <= i < |s| => Lower(s[i]))
  }

  /** The two characters are the same letter, one of them possibly in
      upper case. */
  predicate SameLetterIgnoringCase(c: char, d: char) {
    c == d || ('A' <= c <= 'Z' && d as int == c as int + 32) || ('A' <= d <= 'Z' && c as int == d as int + 32)
  }

  /** Lower-cased text has no upper-case letter left, and lower-casing it
      again changes nothing. */
  lemma LowerStrIsLowerCase(s: string)
    ensures forall i :: 0 <= i < |LowerStr(s)| ==> !('A' <= LowerStr(s)[i] <= 'Z')
    ensures LowerStr(LowerStr(s)) == LowerStr(s)
  {
  }

  /** Two strings lower-case to the same text exactly when they agree
      letter by letter up to ASCII case. */
  lemma LowerStrEqualIff(a: string, b: string)
    ensures LowerStr(a) == LowerStr(b) <==>
      |a| == |b| && forall i :: 0 <= i < |a| ==> SameLetterIgnoringCase(a[i], b[i])
  {
    if LowerStr(a) == LowerStr(b) {
      forall i | 0 <= i < |a| ensures SameLetterIgnoringCase(a[i], b[i]) {
        assert LowerStr(a)[i] == LowerStr(b)[i];
      }
    }
  }

  /** The characters Python's `str.isspace` accepts. */
  predicate IsSpace(c: char) {
    var n := c as int;
    (9 <= n <= 13) || (28 <= n <= 32) || n == 0x85 || n == 0xA0 || n == 0x1680
    || (0x2000 <= n <= 0x200A) || n == 0x2028 || n == 0x2029 || n == 0x202F
    || n == 0x205F || n == 0x3000
  }

  predicate AllSpace(s: string) {
    forall i :: 0 <= i < |s| ==> IsSpace(s[i])
  }

  /** Leading white space removed: the result is the suffix of `s` that
      starts at its first non-space character. */
  function TrimStart(s: string): (r: string)
    ensures |r| <= |s| && r == s[|s| - |r|..]
    ensures AllSpace(s[..|s| - |r|])
    ensures r == [] || !IsSpace(r[0])
  {
    if |s| > 0 && IsSpace(s[0]) then
      var r := TrimStart(s[1..]);
      LeadingSpaceStep(s, r);
      r
    else
      assert s[0..] == s && s[..0] == [];
      s
  }

  /** Trailing white space removed: the result is the prefix of `s` that
      ends at its last non-space character. */
  function TrimEnd(s: string): (r: string)
    ensures |r| <= |s| && r == s[..|r|]
    ensures AllSpace(s[|r|..])
    ensures r == [] || !IsSpace(r[|r| - 1])
  {
    if |s| > 0 && IsSpace(s[|s| - 1]) then
      var r := TrimEnd(s[..|s| - 1]);
      TrailingSpaceStep(s, r);
      r
    else
      assert s[..|s|] == s && s[|s|..] == [];
      s
  }

  /** A suffix left after leading spaces of `s[1..]` is also one of `s`
      when `s` starts with a space. */
  lemma LeadingSpaceStep(s: string, r: string)
    requires |s| > 0 && IsSpace(s[0])
    requires |r| <= |s| - 1 && r == s[1..][|s| - 1 - |r|..]
    requires AllSpace(s[1..][..|s| - 1 - |r|])
    ensures r == s[|s| - |r|..] && AllSpace(s[..|s| - |r|])
  {
    forall i | 0 <= i < |s| - |r| ensures s[..|s| - |r|][i] == s[i] && IsSpace(s[i]) {
      if i > 0 { assert s[1..][..|s| - 1 - |r|][i - 1] == s[i]; }
    }
  }

  /** A prefix left before trailing spaces of `s[..|s| - 1]` is also one of
      `s` when `s` ends with a space. */
  lemma TrailingSpaceStep(s: string, r: string)
    requires |s| > 0 && IsSpace(s[|s| - 1])
    requires |r| <= |s| - 1 && r == s[..|s| - 1][..|r|]
    requires AllSpace(s[..|s| - 1][|r|..])
    ensures r == s[..|r|] && AllSpace(s[|r|..])
  {
    forall i | |r| <= i < |s| ensures s[|r|..][i - |r|] == s[i] && IsSpace(s[i]) {
      if i < |s| - 1 { assert s[..|s| - 1][|r|..][i - |r|] == s[i]; }
    }
  }

  /** Python's `str.strip()` with no argument. */
  function Strip(s: string): (r: string)
    ensures exists i, j :: 0 <= i <= j <= |s| && r == s[i..j] && AllSpace(s[..i]) && AllSpace(s[j..])
    ensures r == [] || (!IsSpace(r[0]) && !IsSpace(r[|r| - 1]))
  {
    var t := TrimStart(s);
    var r := TrimEnd(t);
    TrimBoth(s, t, r);
    r
  }

  /** Trimming the end of a string whose start was trimmed leaves a middle
      slice with white space only on either side of it. */
  lemma TrimBoth(s: string, t: string, r: string)
    requires |t| <= |s| && t == s[|s| - |t|..] && AllSpace(s[..|s| - |t|])
    requires t == [] || !IsSpace(t[0])
    requires |r| <= |t| && r == t[..|r|] && AllSpace(t[|r|..])
    requires r == [] || !IsSpace(r[|r| - 1])
    ensures exists i, j :: 0 <= i <= j <= |s| && r == s[i..j] && AllSpace(s[..i]) && AllSpace(s[j..])
    ensures r == [] || (!IsSpace(r[0]) && !IsSpace(r[|r| - 1]))
  {
    var i := |s| - |t|;
    assert r == s[i..i + |r|];
    assert s[i + |r|..] == t[|r|..];
    assert AllSpace(s[..i]) && AllSpace(s[i + |r|..]);
    if r != [] {
      assert r[0] == t[0];
    }
  }

  /** A string strips to nothing exactly when every character is white space. */
  lemma StripEmptyIffAllSpace(s: string)
    ensures Strip(s) == [] <==> AllSpace(s)
  {
    var r := Strip(s);
    var i, j :| 0 <= i <= j <= |s| && r == s[i..j] && AllSpace(s[..i]) && AllSpace(s[j..]);
    if r == [] {
      forall k | 0 <= k < |s| ensures IsSpace(s[k]) {
        if k < i { assert s[..i][k] == s[k]; } else { assert s[j..][k - j] == s[k]; }
      }
    } else {
      assert s[i] == r[0];
    }
  }

  /** `p` occurs in `t` starting at index `i`. */
  predicate OccursAt(t: string, p: string, i: int) {
    0 <= i <= |t| - |p| && t[i..i + |p|] == p
  }

  /** Python's `p in t` for strings. */
  predicate Contains(t: string, p: string) {
    exists i | 0 <= i <= |t| - |p| :: OccursAt(t, p, i)
  }

  /** Length of `os.path.commonprefix([a, b])`: the longest common prefix. */
  function CommonPrefixLen(a: string, b: string): (n: nat)
    ensures n <= |a| && n <= |b|
    ensures a[..n] == b[..n]
    ensures n == |a| || n == |b| || a[n] != b[n]
  {
    if |a| == 0 || |b| == 0 || a[0] != b[0] then 0
    else
      var m := CommonPrefixLen(a[1..], b[1..]);
      assert a[..m + 1] == [a[0]] + a[1..][..m];
      assert b[..m + 1] == [b[0]] + b[1..][..m];
      m + 1
  }

  /** No common prefix is longer than the one found. */
  lemma CommonPrefixIsLongest(a: string, b: string, k: nat)
    requires k <= |a| && k <= |b| && a[..k] == b[..k]
    ensures k <= CommonPrefixLen(a, b)
  {
  }

  /** Python's `c * n` for a one-character string: empty when `n <= 0`. */
  function Repeat(c: char, n: int): (r: string)
    ensures |r| == (if n <= 0 then 0 else n)
    ensures forall i :: 0 <= i < |r| ==> r[i] == c
  {
    if n <= 0 then [] else [c] + Repeat(c, n - 1)
  }

  /** Python's `w[:k]`: a non-negative bound counts from the front and is
      capped at the length; a negative one counts back from the end. */
  function SlicePrefix(w: string, k: int): (r: string)
    ensures |r| <= |w| && r == w[..|r|]
    ensures 0 <= k ==> |r| == (if k <= |w| then k else |w|)
  {
    if 0 <= k then (if k <= |w| then w[..k] else w)
    else if |w| + k <= 0 then []
    else w[..|w| + k]
  }

  /** Python's `s.split(" +")`: the separator is the literal two-character
      string space-plus, not a pattern. */
  function SplitPlus(s: string): (parts: seq<string>)
    ensures |parts| >= 1
    ensures |parts[0]| <= |s| && parts[0] == s[..|parts[0]|]
    decreases |s|
  {
    if |s| < 2 then [s]
    else if s[0] == ' ' && s[1] == '+' then [""] + SplitPlus(s[2..])
    else
      var rest := SplitPlus(s[1..]);
      [[s[0]] + rest[0]] + rest[1..]
  }

  /** `sep.join(parts)`. */
  function JoinWith(parts: seq<string>, sep: string): string {
    if |parts| == 0 then ""
    else if |parts| == 1 then parts[0]
    else parts[0] + sep + JoinWith(parts[1..], sep)
  }

  /** The separator space-plus starts at index `i` of `s`. */
  predicate SeparatorAt(s: string, i: int) {
    0 <= i < |s| - 1 && s[i] == ' ' && s[i + 1] == '+'
  }

  predicate HasPlusSeparator(s: string) {
    exists i | 0 <= i < |s| - 1 :: SeparatorAt(s, i)
  }

  /** The character-level test agrees with Python's substring test. */
  lemma HasPlusSeparatorIsContains(s: string)
    ensures HasPlusSeparator(s) <==> Contains(s, " +")
  {
    if HasPlusSeparator(s) {
      var i :| 0 <= i < |s| - 1 && SeparatorAt(s, i);
      assert OccursAt(s, " +", i);
    }
    if Contains(s, " +") {
      var i :| 0 <= i <= |s| - 2 && OccursAt(s, " +", i);
      assert s[i..i + 2][0] == s[i] && s[i..i + 2][1] == s[i + 1];
      assert SeparatorAt(s, i);
    }
  }

  /** Splitting on space-plus loses nothing: joining the parts back with the
      same separator yields the input. */
  lemma {:induction false} SplitPlusJoin(s: string)
    ensures JoinWith(SplitPlus(s), " +") == s
    decreases |s|
  {
    if |s| < 2 {
    } else if s[0] == ' ' && s[1] == '+' {
      SplitPlusJoin(s[2..]);
      JoinEmptyHead(SplitPlus(s[2..]), " +");
      assert s == " +" + s[2..];
    } else {
      SplitPlusJoin(s[1..]);
      JoinConsHead(s[0], SplitPlus(s[1..]), " +");
      assert s == [s[0]] + s[1..];
    }
  }

  /** An empty first part contributes only the separator. */
  lemma JoinEmptyHead(rest: seq<string>, sep: string)
    requires |rest| >= 1
    ensures JoinWith([""] + rest, sep) == sep + JoinWith(rest, sep)
  {
    assert ([""] + rest)[1..] == rest;
  }

  /** A character put in front of the first part comes first in the join. */
  lemma JoinConsHead(c: char, rest: seq<string>, sep: string)
    requires |rest| >= 1
    ensures JoinWith([[c] + rest[0]] + rest[1..], sep) == [c] + JoinWith(rest, sep)
  {
    var parts := [[c] + rest[0]] + rest[1..];
    if |rest| > 1 {
      assert parts[1..] == rest[1..];
    }
  }

  /** No part of a split holds the separator. */
  lemma {:induction false} SplitPlusPartsClean(s: string)
    ensures forall k :: 0 <= k < |SplitPlus(s)| ==> !HasPlusSeparator(SplitPlus(s)[k])
    decreases |s|
  {
    var parts := SplitPlus(s);
    if |s| < 2 {
    } else if s[0] == ' ' && s[1] == '+' {
      SplitPlusPartsClean(s[2..]);
      var rest := SplitPlus(s[2..]);
      assert forall k :: 1 <= k < |parts| ==> parts[k] == rest[k - 1];
    } else {
      SplitPlusPartsClean(s[1..]);
      var rest := SplitPlus(s[1..]);
      ConsKeepsNoSeparator(s, rest[0]);
      assert forall k :: 1 <= k < |parts| ==> parts[k] == rest[k];
    }
  }

  /** Putting the first character of `s` in front of a separator-free piece
      keeps it separator-free, unless `s` itself starts with the separator. */
  lemma ConsKeepsNoSeparator(s: string, w: string)
    requires |s| >= 2 && !SeparatorAt(s, 0)
    requires !HasPlusSeparator(w)
    requires w == [] || w[0] == s[1]
    ensures !HasPlusSeparator([s[0]] + w)
  {
    var v := [s[0]] + w;
    forall i | 0 <= i < |v| - 1 ensures !SeparatorAt(v, i) {
      if i > 0 {
        assert SeparatorAt(v, i) == SeparatorAt(w, i - 1);
      }
    }
  }

  /** Dropping the first character cannot create a separator. */
  lemma TailKeepsNoSeparator(s: string)
    requires |s| >= 1 && !HasPlusSeparator(s)
    ensures !HasPlusSeparator(s[1..])
  {
    forall i | 0 <= i < |s| - 2 ensures !SeparatorAt(s[1..], i) {
      assert SeparatorAt(s[1..], i) == SeparatorAt(s, i + 1);
    }
  }

  /** A phrase without the separator is a single part. */
  lemma {:induction false} SplitPlusSingle(s: string)
    requires !HasPlusSeparator(s)
    ensures SplitPlus(s) == [s]
    decreases |s|
  {
    if |s| >= 2 {
      if SeparatorAt(s, 0) {
        assert false;
      }
      TailKeepsNoSeparator(s);
      SplitPlusSingle(s[1..]);
      assert [s[0]] + s[1..] == s;
    }
  }

  /** A separator-free piece followed by the separator splits off as the
      first part. */
  lemma {:induction false} SplitPlusCons(a: string, rest: string)
    requires !HasPlusSeparator(a)
    ensures SplitPlus(a + " +" + rest) == [a] + SplitPlus(rest)
    decreases |a|
  {
    var s := a + " +" + rest;
    if |a| == 0 {
      assert s == " +" + rest && s[2..] == rest;
    } else {
      var a' := a[1..];
      TailKeepsNoSeparator(a);
      SplitPlusCons(a', rest);
      assert s[1..] == a' + " +" + rest;
      assert !SeparatorAt(s, 0) by {
        if |a'| > 0 { assert !SeparatorAt(a, 0); }
      }
      assert [a[0]] + a' == a;
    }
  }
}
