/**
 * Replacement of the first `START[\s\S]*?END` region of a string, as the non-global
 * regular expressions `/<!-- X_START -->[\s\S]*?<!-- X_END -->/` pick it: the leftmost
 * START, closed by the nearest END that follows it.
 */
module LazyBlock {
  import opened JsValues
  import opened Text

  /** s[i..k] starts with `start`, ends with `end`, and the two do not overlap. */
  predicate BlockAt(s: string, start: string, end: string, i: nat, k: nat)
  {
    OccursAt(s, start, i) && i + |start| + |end| <= k && OccursAt(s, end, k - |end|)
  }

  /** s[i..k] is the match a regular-expression engine reports: leftmost start, then shortest (lazy) extent. */
  ghost predicate IsLazyMatch(s: string, start: string, end: string, i: nat, k: nat)
  {
    && BlockAt(s, start, end, i, k)
    && (forall i': nat, k': nat :: BlockAt(s, start, end, i', k') ==> i <= i')
    && (forall k': nat :: BlockAt(s, start, end, i, k') ==> k <= k')
  }

  /** The bounds of the first block: the first `start`, then the first `end` after it. */
  function FindBlock(s: string, start: string, end: string): Option<(nat, nat)>
  {
    match FindFrom(s, start, 0)
    case None => None
    case Some(i) =>
      match FindFrom(s, end, i + |start|)
      case None => None
      case Some(j) => Some((i, j + |end|))
  }

  /** The scan finds exactly the regular-expression match, and finds nothing exactly when there is no block. */
  lemma {:induction false} FindBlockIsLazyMatch(s: string, start: string, end: string)
    ensures FindBlock(s, start, end).Some? ==>
              IsLazyMatch(s, start, end, FindBlock(s, start, end).value.0, FindBlock(s, start, end).value.1)
    ensures FindBlock(s, start, end).None? ==> forall i: nat, k: nat :: !BlockAt(s, start, end, i, k)
  {
    match FindFrom(s, start, 0) {
      case None =>
      case Some(i) =>
        match FindFrom(s, end, i + |start|) {
          case None =>
            forall i': nat, k': nat | BlockAt(s, start, end, i', k')
              ensures false
            {
            }
          case Some(j) =>
            var k := j + |end|;
            assert BlockAt(s, start, end, i, k);
            forall k': nat | BlockAt(s, start, end, i, k')
              ensures k <= k'
            {
              assert OccursAt(s, end, k' - |end|);
            }
        }
    }
  }

  /** `s.replace(/START[\s\S]*?END/, frag)`: the first block, markers included, becomes frag; no block, no change. */
  function ReplaceFirstBlock(s: string, start: string, end: string, frag: string): string
  {
    match FindBlock(s, start, end)
    case None => s
    case Some((i, k)) => s[..i] + frag + s[k..]
  }

  /** The replaced region is exactly the regular-expression match; without a block the string is unchanged. */
  lemma {:induction false} ReplacesLazyMatch(s: string, start: string, end: string, frag: string)
    ensures forall i: nat, k: nat :: IsLazyMatch(s, start, end, i, k) ==>
              ReplaceFirstBlock(s, start, end, frag) == s[..i] + frag + s[k..]
    ensures (forall i: nat, k: nat :: !BlockAt(s, start, end, i, k)) ==> ReplaceFirstBlock(s, start, end, frag) == s
  {
    FindBlockIsLazyMatch(s, start, end);
    match FindBlock(s, start, end) {
      case None =>
      case Some((i, k)) =>
        ReplaceFoundBlock(s, start, end, frag, i, k);
        forall i': nat, k': nat | IsLazyMatch(s, start, end, i', k')
          ensures ReplaceFirstBlock(s, start, end, frag) == s[..i'] + frag + s[k'..]
        {
          LazyMatchUnique(s, start, end, i, k, i', k');
        }
    }
  }

  /** There is at most one lazy match. */
  lemma {:induction false} LazyMatchUnique(s: string, start: string, end: string, i: nat, k: nat, i': nat, k': nat)
    requires IsLazyMatch(s, start, end, i, k) && IsLazyMatch(s, start, end, i', k')
    ensures i == i' && k == k'
  {
    assert i <= i' && i' <= i;
  }

  lemma {:induction false} ReplaceFoundBlock(s: string, start: string, end: string, frag: string, i: nat, k: nat)
    requires FindBlock(s, start, end) == Some((i, k))
    ensures ReplaceFirstBlock(s, start, end, frag) == s[..i] + frag + s[k..]
  {
  }

  /** The first character of p does not occur again in p (true of every `<!-- … -->` marker). */
  predicate LeadIsUnique(p: string)
  {
    |p| > 0 && forall k :: 0 < k < |p| ==> p[k] != p[0]
  }

  /**
   * In a string laid out as x START b END y, where x holds no START and b holds no END,
   * the block replaced is exactly START b END and everything around it is kept.
   */
  lemma {:induction false} ReplaceLaidOut(x: string, start: string, b: string, end: string, y: string, frag: string)
    requires LeadIsUnique(start) && LeadIsUnique(end)
    requires !Contains(x, start) && !Contains(b, end)
    ensures ReplaceFirstBlock(x + start + b + end + y, start, end, frag) == x + frag + y
  {
    LaidOutBlock(x, start, b, end, y);
    ReplaceFoundBlock(x + start + b + end + y, start, end, frag, |x|, |x + start + b| + |end|);
    LaidOutEnds(x, start, b, end, y);
  }

  /** The block found in x START b END y spans exactly START b END. */
  lemma {:induction false} LaidOutBlock(x: string, start: string, b: string, end: string, y: string)
    requires LeadIsUnique(start) && LeadIsUnique(end)
    requires !Contains(x, start) && !Contains(b, end)
    ensures FindBlock(x + start + b + end + y, start, end) == Some((|x|, |x + start + b| + |end|))
  {
    LaidOutStart(x, start, b, end, y);
    LaidOutEnd(x, start, b, end, y);
    FoundBlock(x + start + b + end + y, start, end, |x|, |x + start + b|);
  }

  lemma {:induction false} LaidOutEnds(x: string, start: string, b: string, end: string, y: string)
    ensures (x + start + b + end + y)[..|x|] == x
    ensures (x + start + b + end + y)[|x + start + b| + |end|..] == y
  {
  }

  /** The search for START stops right after x. */
  lemma {:induction false} LaidOutStart(x: string, start: string, b: string, end: string, y: string)
    requires LeadIsUnique(start) && !Contains(x, start)
    ensures FindFrom(x + start + b + end + y, start, 0) == Some(|x|)
  {
    LaidOutPieces(x, start, b, end, y);
    assert x[0..] == x;
    FirstOccurrenceAfter(x, start, b + end + y, 0, x + start + b + end + y);
  }

  /** The search for END from the end of START stops right after b. */
  lemma {:induction false} LaidOutEnd(x: string, start: string, b: string, end: string, y: string)
    requires LeadIsUnique(end) && !Contains(b, end)
    ensures FindFrom(x + start + b + end + y, end, |x| + |start|) == Some(|x + start + b|)
  {
    LaidOutPieces(x, start, b, end, y);
    FirstOccurrenceAfter(x + start + b, end, y, |x| + |start|, x + start + b + end + y);
  }

  /** The regroupings and slices of x START b END y that the search and the replacement see. */
  lemma {:induction false} LaidOutPieces(x: string, start: string, b: string, end: string, y: string)
    ensures x + start + b + end + y == x + start + (b + end + y)
    ensures x + start + b + end + y == (x + start + b) + end + y
    ensures (x + start + b)[|x| + |start|..] == b
  {
  }

  lemma {:induction false} FoundBlock(s: string, start: string, end: string, i: nat, j: nat)
    requires FindFrom(s, start, 0) == Some(i) && FindFrom(s, end, i + |start|) == Some(j)
    ensures FindBlock(s, start, end) == Some((i, j + |end|))
  {
  }
}
