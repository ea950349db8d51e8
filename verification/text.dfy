/**
 * String searching, splitting and global replacement with a literal pattern, as
 * JavaScript's `String.prototype.split(string)`, `.pop()`, `.startsWith` and
 * `.replace(/literal/g, text)` behave on them.
 */
module Text {
  import opened JsValues

  /** p occurs in s starting at index i. */
  predicate OccursAt(s: string, p: string, i: nat)
  {
    i + |p| <= |s| && s[i..i + |p|] == p
  }

  ghost predicate Contains(s: string, p: string)
  {
    exists i: nat :: OccursAt(s, p, i)
  }

  /** `s.startsWith(p)`. */
  predicate StartsWith(s: string, p: string)
  {
    |p| <= |s| && s[..|p|] == p
  }

  /** The index of the first occurrence of p in s at or after `from`, as a left-to-right scan finds it. */
  function FindFrom(s: string, p: string, from: nat): (r: Option<nat>)
    ensures r.Some? ==> from <= r.value && OccursAt(s, p, r.value)
    ensures r.Some? ==> forall j: nat :: from <= j < r.value ==> !OccursAt(s, p, j)
    ensures r.None? ==> forall j: nat :: from <= j ==> !OccursAt(s, p, j)
    decreases |s| - from
  {
    if from + |p| > |s| then None
    else if s[from..from + |p|] == p then Some(from)
    else FindFrom(s, p, from + 1)
  }

  /** An occurrence inside a slice is an occurrence in the whole string, shifted by the slice's start. */
  lemma {:induction false} OccursInSlice(s: string, p: string, lo: nat, hi: nat, j: nat)
    requires lo <= j && j + |p| <= hi <= |s|
    ensures OccursAt(s, p, j) <==> OccursAt(s[lo..hi], p, j - lo)
  {
    var a := j - lo;
    var u := s[lo..hi][a..a + |p|];
    var v := s[j..j + |p|];
    forall k | 0 <= k < |p|
      ensures u[k] == v[k]
    {
    }
    assert u == v;
  }

  /** Text that contains p in the middle contains p. */
  lemma {:induction false} ContainsInside(x: string, p: string, y: string, s: string)
    requires s == x + p + y
    ensures Contains(s, p)
  {
    assert s[|x|..|x| + |p|] == p;
    assert OccursAt(s, p, |x|);
  }

  /** Nothing found in s means nothing is contained in it. */
  lemma {:induction false} FindNoneNotContains(s: string, p: string)
    requires FindFrom(s, p, 0).None?
    ensures !Contains(s, p)
  {
  }

  /**
   * A pattern whose first character never recurs in it cannot straddle the start of
   * another copy of itself: if x does not contain p, then in x + p + y the first
   * occurrence of p is the one right after x.
   */
  lemma {:induction false} FirstOccurrenceAfter(x: string, p: string, y: string, from: nat, s: string)
    requires |p| > 0 && forall k :: 0 < k < |p| ==> p[k] != p[0]
    requires from <= |x|
    requires !Contains(x[from..], p)
    requires s == x + p + y
    ensures FindFrom(s, p, from) == Some(|x|)
  {
    assert OccursAt(s, p, |x|) by { assert s[|x|..|x| + |p|] == p; }
    forall j: nat | from <= j < |x|
      ensures !OccursAt(s, p, j)
    {
      if j + |p| <= |x| {
        OccursInSlice(s, p, from, |x|, j);
        assert s[from..|x|] == x[from..];
      } else {
        assert s[|x|] == p[0];
      }
    }
  }

  /** The pieces `s.split(sep)` returns. */
  function Split(s: string, sep: string): (parts: seq<string>)
    requires |sep| > 0
    ensures |parts| >= 1
    decreases |s|
  {
    match FindFrom(s, sep, 0)
    case None => [s]
    case Some(i) => [s[..i]] + Split(s[i + |sep|..], sep)
  }

  /** `parts.join(sep)`. */
  function Join(parts: seq<string>, sep: string): string
  {
    if |parts| == 0 then ""
    else if |parts| == 1 then parts[0]
    else parts[0] + sep + Join(parts[1..], sep)
  }

  /** Splitting and re-joining with the same separator gives back the string. */
  lemma {:induction false} JoinSplit(s: string, sep: string)
    requires |sep| > 0
    ensures Join(Split(s, sep), sep) == s
    decreases |s|
  {
    var f := FindFrom(s, sep, 0);
    if f.Some? {
      var i := f.value;
      var rest := s[i + |sep|..];
      var tail := Split(rest, sep);
      assert Split(s, sep) == [s[..i]] + tail;
      JoinSplit(rest, sep);
      SplitJoinStep(s[..i], tail, sep);
      assert Join(Split(s, sep), sep) == s[..i] + sep + rest;
      assert s[i..i + |sep|] == sep;
      assert s == s[..i] + s[i..i + |sep|] + rest;
    }
  }

  lemma {:induction false} SplitJoinStep(head: string, tail: seq<string>, sep: string)
    requires |tail| > 0
    ensures Join([head] + tail, sep) == head + sep + Join(tail, sep)
  {
    assert ([head] + tail)[1..] == tail;
  }

  /** No piece of a split contains the separator. */
  lemma {:induction false} SplitPiecesFree(s: string, sep: string)
    requires |sep| > 0
    ensures forall k :: 0 <= k < |Split(s, sep)| ==> !Contains(Split(s, sep)[k], sep)
    decreases |s|
  {
    match FindFrom(s, sep, 0)
    case None =>
    case Some(i) =>
      var rest := s[i + |sep|..];
      SplitPiecesFree(rest, sep);
      PrefixBeforeFirstFree(s, sep, i);
  }

  /** The text before the first occurrence of p does not contain p. */
  lemma {:induction false} PrefixBeforeFirstFree(s: string, p: string, i: nat)
    requires |p| > 0
    requires FindFrom(s, p, 0) == Some(i)
    ensures !Contains(s[..i], p)
  {
    if Contains(s[..i], p) {
      var j: nat :| OccursAt(s[..i], p, j);
      OccursInSlice(s, p, 0, i, j);
    }
  }

  function Last<T>(xs: seq<T>): T
    requires |xs| > 0
  {
    xs[|xs| - 1]
  }

  /** `s.split(sep).pop()`: the last piece of the split. */
  function AfterLast(s: string, sep: string): string
    requires |sep| > 0
  {
    Last(Split(s, sep))
  }

  /** `s.endsWith(q)`. */
  predicate EndsWith(s: string, q: string)
  {
    |q| <= |s| && s[|s| - |q|..] == q
  }

  /**
   * The last piece of a split is the whole string when the separator is absent, and
   * otherwise the separator-free text that ends the string right after an occurrence
   * of the separator.
   */
  lemma {:induction false} AfterLastShape(s: string, sep: string)
    requires |sep| > 0
    ensures !Contains(AfterLast(s, sep), sep)
    ensures !Contains(s, sep) ==> AfterLast(s, sep) == s
    ensures Contains(s, sep) ==> EndsWith(s, sep + AfterLast(s, sep))
    decreases |s|
  {
    SplitPiecesFree(s, sep);
    var f := FindFrom(s, sep, 0);
    if f.Some? {
      var i := f.value;
      var rest := s[i + |sep|..];
      var tail := Split(rest, sep);
      assert Split(s, sep) == [s[..i]] + tail;
      assert AfterLast(s, sep) == AfterLast(rest, sep);
      var last := AfterLast(s, sep);
      AfterLastShape(rest, sep);
      assert s[i..i + |sep|] == sep;
      assert s == s[..i] + sep + rest;
      assert OccursAt(s, sep, i);
      if Contains(rest, sep) {
        EndsWithExtend(s[..i] + sep, rest, sep + last);
        assert s == (s[..i] + sep) + rest;
      } else {
        assert EndsWith(sep + rest, sep + last);
        EndsWithExtend(s[..i], sep + rest, sep + last);
        assert s == s[..i] + (sep + rest);
      }
    }
  }

  lemma {:induction false} EndsWithExtend(pre: string, s: string, q: string)
    requires EndsWith(s, q)
    ensures EndsWith(pre + s, q)
  {
    assert (pre + s)[|pre + s| - |q|..] == s[|s| - |q|..];
  }

  /** A split has more than one piece exactly when the separator occurs. */
  lemma {:induction false} SplitCount(s: string, sep: string)
    requires |sep| > 0
    ensures |Split(s, sep)| >= 2 <==> Contains(s, sep)
  {
    match FindFrom(s, sep, 0) {
      case None =>
      case Some(i) => assert OccursAt(s, sep, i);
    }
  }

  /** A string that does not contain sep splits into itself alone. */
  lemma {:induction false} SplitFree(s: string, sep: string)
    requires |sep| > 0 && !Contains(s, sep)
    ensures Split(s, sep) == [s]
  {
  }

  /** `s.replace(/pat/g, rep)` for a literal pattern: left-to-right, non-overlapping, replacement taken literally. */
  function ReplaceAll(s: string, pat: string, rep: string): (r: string)
    requires |pat| > 0
    decreases |s|
  {
    match FindFrom(s, pat, 0)
    case None => s
    case Some(i) => s[..i] + rep + ReplaceAll(s[i + |pat|..], pat, rep)
  }

  /** A string that is exactly the pattern becomes exactly the replacement. */
  lemma {:induction false} ReplaceWhole(pat: string, rep: string)
    requires |pat| > 0
    ensures ReplaceAll(pat, pat, rep) == rep
  {
    assert pat[0..|pat|] == pat;
    assert FindFrom(pat, pat, 0) == Some(0);
    assert pat[|pat|..] == "";
    assert ReplaceAll("", pat, rep) == "";
    assert pat[..0] + rep == rep;
  }

  /** A string without the pattern is left as it is. */
  lemma {:induction false} ReplaceAllAbsent(s: string, pat: string, rep: string)
    requires |pat| > 0 && !Contains(s, pat)
    ensures ReplaceAll(s, pat, rep) == s
  {
  }

  /** Global replacement is split-then-join: every occurrence, and nothing else, becomes the replacement. */
  lemma {:induction false} ReplaceAllIsSplitJoin(s: string, pat: string, rep: string)
    requires |pat| > 0
    ensures ReplaceAll(s, pat, rep) == Join(Split(s, pat), rep)
    decreases |s|
  {
    match FindFrom(s, pat, 0)
    case None =>
    case Some(i) =>
      var rest := s[i + |pat|..];
      ReplaceAllIsSplitJoin(rest, pat, rep);
      var tail := Split(rest, pat);
      assert Split(s, pat) == [s[..i]] + tail;
      assert Join(Split(s, pat), rep) == s[..i] + rep + Join(tail, rep);
  }

  /** Dropping the first character shifts every occurrence one place to the left. */
  lemma {:induction false} OccursShift(s: string, p: string, j: nat)
    requires |s| > 0
    ensures OccursAt(s, p, j + 1) <==> OccursAt(s[1..], p, j)
  {
    if j + |p| <= |s| - 1 {
      assert s[1..][j..j + |p|] == s[j + 1..j + 1 + |p|];
    }
  }

  /** When p does not start at index 0, the first occurrence in s is one past the first occurrence in s[1..]. */
  lemma {:induction false} FindFromTail(s: string, p: string)
    requires |s| > 0 && !OccursAt(s, p, 0)
    ensures FindFrom(s, p, 0).None? <==> FindFrom(s[1..], p, 0).None?
    ensures FindFrom(s, p, 0).Some? ==> FindFrom(s, p, 0).value == FindFrom(s[1..], p, 0).value + 1
  {
    var whole := FindFrom(s, p, 0);
    var tail := FindFrom(s[1..], p, 0);
    if whole.Some? {
      var k := whole.value;
      OccursShift(s, p, k - 1);
      assert OccursAt(s[1..], p, k - 1);
    }
    if tail.Some? {
      var j := tail.value;
      OccursShift(s, p, j);
      assert OccursAt(s, p, j + 1);
    }
  }

  /** Replacing a one-character pattern maps every character independently. */
  function MapChar(s: string, c: char, rep: string): (r: string)
    ensures c !in rep ==> c !in r
    ensures c !in s ==> r == s
  {
    if |s| == 0 then ""
    else (if s[0] == c then rep else [s[0]]) + MapChar(s[1..], c, rep)
  }

  /** The character map distributes over concatenation. */
  lemma {:induction false} MapCharAppend(x: string, y: string, c: char, rep: string)
    ensures MapChar(x + y, c, rep) == MapChar(x, c, rep) + MapChar(y, c, rep)
    decreases |x|
  {
    if |x| > 0 {
      assert (x + y)[1..] == x[1..] + y;
      MapCharAppend(x[1..], y, c, rep);
    } else {
      assert x + y == y;
    }
  }

  /** A one-character pattern at the head: the replacement, then the replaced rest. */
  lemma {:induction false} ReplaceCharAtHead(s: string, c: char, rep: string)
    requires |s| > 0 && s[0] == c
    ensures ReplaceAll(s, [c], rep) == rep + ReplaceAll(s[1..], [c], rep)
  {
    assert OccursAt(s, [c], 0);
    assert s[1..] == s[0 + |[c]|..];
  }

  /** One step of the global replace: text before the first occurrence, the replacement, then the rest replaced. */
  lemma {:induction false} ReplaceAllStep(s: string, pat: string, rep: string, i: nat)
    requires |pat| > 0 && FindFrom(s, pat, 0) == Some(i)
    ensures ReplaceAll(s, pat, rep) == s[..i] + rep + ReplaceAll(s[i + |pat|..], pat, rep)
  {
  }

  lemma {:induction false} ConsRegroup(a: char, x: string, rep: string, z: string)
    ensures [a] + (x + rep + z) == ([a] + x) + rep + z
  {
  }

  /** Any other head character is kept, then the rest is replaced. */
  lemma {:induction false} ReplaceCharSkipHead(s: string, c: char, rep: string)
    requires |s| > 0 && s[0] != c
    ensures ReplaceAll(s, [c], rep) == [s[0]] + ReplaceAll(s[1..], [c], rep)
  {
    var t := s[1..];
    FindFromTail(s, [c]);
    if FindFrom(s, [c], 0).None? {
      FindNoneNotContains(t, [c]);
      assert s == [s[0]] + t;
    } else {
      var i := FindFrom(s, [c], 0).value;
      var j := i - 1;
      ReplaceAllStep(s, [c], rep, i);
      ReplaceAllStep(t, [c], rep, j);
      var z := ReplaceAll(s[i + 1..], [c], rep);
      assert t[j + 1..] == s[i + 1..];
      assert s[..i] == [s[0]] + t[..j];
      ConsRegroup(s[0], t[..j], rep, z);
    }
  }

  /** Global replacement of a single character is the character-by-character map. */
  lemma {:induction false} ReplaceCharIsMap(s: string, c: char, rep: string)
    ensures ReplaceAll(s, [c], rep) == MapChar(s, c, rep)
    decreases |s|
  {
    if |s| > 0 {
      ReplaceCharIsMap(s[1..], c, rep);
      if s[0] == c {
        ReplaceCharAtHead(s, c, rep);
      } else {
        ReplaceCharSkipHead(s, c, rep);
      }
    }
  }
}
