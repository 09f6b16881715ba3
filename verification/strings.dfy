/** Plain-text string operations the engine relies on: substring search with the
    meaning of `String.prototype.indexOf`, and global replacement of a literal target
    with the meaning of `text.replace(new RegExp(target, 'g'), value)` when `target`
    has no regular-expression metacharacters and `value` has no `$`. */
module Strings {
  import opened Wrappers

  /** `sub` occurs in `s` starting at position `i`. */
  predicate OccursAt(s: string, sub: string, i: nat) {
    i + |sub| <= |s| && s[i..i + |sub|] == sub
  }

  /** `i` is the leftmost position at which `sub` occurs in `s`. */
  ghost predicate FirstAt(s: string, sub: string, i: nat) {
    OccursAt(s, sub, i) && forall j: nat :: j < i ==> !OccursAt(s, sub, j)
  }

  /** `sub` is a contiguous substring of `s`. */
  ghost predicate Contains(s: string, sub: string) {
    exists i: nat :: OccursAt(s, sub, i)
  }

  /** Leftmost occurrence of `sub` in `s` at or after `from`, found by trying each position
      in turn. */
  function IndexFrom(s: string, sub: string, from: nat): (r: Option<nat>)
    decreases |s| - from
    ensures r.Some? ==> from <= r.value && r.value + |sub| <= |s|
  {
    if from + |sub| > |s| then None
    else if s[from..from + |sub|] == sub then Some(from)
    else IndexFrom(s, sub, from + 1)
  }

  /** The search finds the leftmost occurrence at or after `from`, and finds nothing only
      when there is none. */
  lemma {:induction false} IndexFromFindsLeftmost(s: string, sub: string, from: nat)
    decreases |s| - from
    ensures var r := IndexFrom(s, sub, from);
      && (r.Some? ==> from <= r.value && OccursAt(s, sub, r.value))
      && (r.Some? ==> forall j: nat :: from <= j < r.value ==> !OccursAt(s, sub, j))
      && (r.None? ==> forall j: nat :: from <= j ==> !OccursAt(s, sub, j))
  {
    if from + |sub| <= |s| && s[from..from + |sub|] != sub {
      IndexFromFindsLeftmost(s, sub, from + 1);
    }
  }

  /** `s.indexOf(sub)`, with `None` standing for -1. */
  function IndexOf(s: string, sub: string): (r: Option<nat>)
    ensures r.Some? <==> Contains(s, sub)
    ensures r.Some? ==> FirstAt(s, sub, r.value)
  {
    IndexFromFindsLeftmost(s, sub, 0);
    IndexFrom(s, sub, 0)
  }

  /** `s.includes(sub)`. */
  function Includes(s: string, sub: string): (b: bool)
    ensures b <==> Contains(s, sub)
  {
    IndexOf(s, sub).Some?
  }

  /** Replaces every match of the literal `target` in `s` by `v`, scanning left to right
      and resuming after each match. An empty target matches at every position, so `v`
      is inserted before each character and at the end, as a global empty regular
      expression does. */
  function ReplaceAll(s: string, target: string, v: string): (r: string)
    decreases |s|
  {
    if |target| == 0 then
      if |s| == 0 then v else v + [s[0]] + ReplaceAll(s[1..], target, v)
    else if |s| < |target| then s
    else if s[..|target|] == target then v + ReplaceAll(s[|target|..], target, v)
    else [s[0]] + ReplaceAll(s[1..], target, v)
  }

  /** Reference definition of global replacement, the way a global regular expression
      walks the text: find the leftmost match at or after `from` with `IndexFrom`, copy
      the text before it, substitute it, and continue right after it. */
  function ReplaceFrom(s: string, target: string, v: string, from: nat): (r: string)
    requires |target| > 0 && from <= |s|
    decreases |s| - from
  {
    match IndexFrom(s, target, from)
    case None => s[from..]
    case Some(i) => s[from..i] + v + ReplaceFrom(s, target, v, i + |target|)
  }

  /** Global replacement over the whole text. */
  function ReplaceEach(s: string, target: string, v: string): (r: string)
    requires |target| > 0
  {
    ReplaceFrom(s, target, v, 0)
  }

  /** Dropping a first character shifts every occurrence one position to the left. */
  lemma {:induction false} OccursInTail(s: string, target: string, j: nat)
    requires |s| > 0
    ensures OccursAt(s[1..], target, j) <==> OccursAt(s, target, j + 1)
  {
    if j + |target| <= |s[1..]| {
      assert s[1..][j..j + |target|] == s[j + 1..j + 1 + |target|];
    }
  }

  /** The scanning definition agrees with the reference definition on every suffix. */
  lemma {:induction false} ReplaceAllIsScanFrom(s: string, target: string, v: string, from: nat)
    requires |target| > 0 && from <= |s|
    ensures ReplaceAll(s[from..], target, v) == ReplaceFrom(s, target, v, from)
    decreases |s| - from, 1
  {
    if |s| - from < |target| {
      ScanAtEnd(s, target, v, from);
    } else if OccursAt(s, target, from) {
      ScanAtMatch(s, target, v, from);
    } else {
      ScanPastMismatch(s, target, v, from);
    }
  }

  /** Base case of `ReplaceAllIsScanFrom`: too little text is left for a match. */
  lemma ScanAtEnd(s: string, target: string, v: string, from: nat)
    requires |target| > 0 && from <= |s| && |s| - from < |target|
    ensures ReplaceAll(s[from..], target, v) == ReplaceFrom(s, target, v, from)
  {
    assert IndexFrom(s, target, from).None?;
  }

  /** Inductive step of `ReplaceAllIsScanFrom` at a match. */
  lemma {:induction false} ScanAtMatch(s: string, target: string, v: string, from: nat)
    requires |target| > 0 && OccursAt(s, target, from)
    ensures ReplaceAll(s[from..], target, v) == ReplaceFrom(s, target, v, from)
    decreases |s| - from, 0
  {
    hide ReplaceAll, ReplaceFrom;
    ReplaceAllIsScanFrom(s, target, v, from + |target|);
    FrontMatchReplaced(s, target, v, from);
    MatchSubstituted(s, target, v, from);
  }

  /** Inductive step of `ReplaceAllIsScanFrom` where no match starts. */
  lemma {:induction false} ScanPastMismatch(s: string, target: string, v: string, from: nat)
    requires |target| > 0 && from + |target| <= |s| && !OccursAt(s, target, from)
    ensures ReplaceAll(s[from..], target, v) == ReplaceFrom(s, target, v, from)
    decreases |s| - from, 0
  {
    ReplaceAllIsScanFrom(s, target, v, from + 1);
    var rest := s[from..];
    assert rest[..|target|] == s[from..from + |target|];
    assert rest[1..] == s[from + 1..];
    assert ReplaceAll(rest, target, v) == [s[from]] + ReplaceAll(s[from + 1..], target, v);
    assert IndexFrom(s, target, from) == IndexFrom(s, target, from + 1);
    ScanSkipsOne(s, target, v, from);
  }

  /** `ReplaceAll` substitutes a match at the front. */
  lemma FrontMatchReplaced(s: string, target: string, v: string, from: nat)
    requires |target| > 0 && OccursAt(s, target, from)
    ensures ReplaceAll(s[from..], target, v) == v + ReplaceAll(s[from + |target|..], target, v)
  {
    var rest := s[from..];
    assert rest[..|target|] == target;
    assert rest[|target|..] == s[from + |target|..];
  }

  /** `ReplaceFrom` substitutes a match at its starting position. */
  lemma MatchSubstituted(s: string, target: string, v: string, from: nat)
    requires |target| > 0 && OccursAt(s, target, from)
    ensures ReplaceFrom(s, target, v, from) == v + ReplaceFrom(s, target, v, from + |target|)
  {
    assert IndexFrom(s, target, from) == Some(from);
    assert s[from..from] == [];
  }

  /** The reference definition copies a character at which no match starts. */
  lemma {:induction false} ScanSkipsOne(s: string, target: string, v: string, from: nat)
    requires |target| > 0 && from < |s|
    requires IndexFrom(s, target, from) == IndexFrom(s, target, from + 1)
    ensures ReplaceFrom(s, target, v, from) == [s[from]] + ReplaceFrom(s, target, v, from + 1)
  {
    var r := IndexFrom(s, target, from + 1);
    if r.None? {
      SkipToEnd(s, target, v, from);
    } else {
      SkipToMatch(s, target, v, from, r.value);
    }
  }

  /** `ScanSkipsOne` when no match follows. */
  lemma SkipToEnd(s: string, target: string, v: string, from: nat)
    requires |target| > 0 && from < |s|
    requires IndexFrom(s, target, from).None? && IndexFrom(s, target, from + 1).None?
    ensures ReplaceFrom(s, target, v, from) == [s[from]] + ReplaceFrom(s, target, v, from + 1)
  {
    assert s[from..] == [s[from]] + s[from + 1..];
  }

  /** `ScanSkipsOne` when the next match starts at `i`. */
  lemma SkipToMatch(s: string, target: string, v: string, from: nat, i: nat)
    requires |target| > 0 && from < |s|
    requires IndexFrom(s, target, from) == Some(i) && IndexFrom(s, target, from + 1) == Some(i)
    ensures ReplaceFrom(s, target, v, from) == [s[from]] + ReplaceFrom(s, target, v, from + 1)
  {
    PrependSlice(s, from, i, v, ReplaceFrom(s, target, v, i + |target|));
  }

  /** Splitting the first character off a slice. */
  lemma PrependSlice(s: string, from: nat, i: nat, v: string, w: string)
    requires from < i <= |s|
    ensures s[from..i] + v + w == [s[from]] + (s[from + 1..i] + v + w)
  {
    assert s[from..i] == [s[from]] + s[from + 1..i];
  }

  /** The scanning definition agrees with the leftmost-match reference definition. */
  lemma ReplaceAllIsLeftmostScan(s: string, target: string, v: string)
    requires |target| > 0
    ensures ReplaceAll(s, target, v) == ReplaceEach(s, target, v)
  {
    ReplaceAllIsScanFrom(s, target, v, 0);
    assert s[0..] == s;
  }

  /** Text without a match of the target is left untouched. */
  lemma {:induction false} ReplaceAllWithoutMatch(s: string, target: string, v: string)
    requires |target| > 0 && !Contains(s, target)
    ensures ReplaceAll(s, target, v) == s
  {
    assert IndexOf(s, target).None?;
    ReplaceAllIsLeftmostScan(s, target, v);
    assert s[0..] == s;
  }

  /** Replacing the target by itself changes nothing. */
  lemma {:induction false} ReplaceAllBySelf(s: string, target: string)
    ensures ReplaceAll(s, target, target) == s
    decreases |s|
  {
    if |target| == 0 {
      if |s| > 0 {
        ReplaceAllBySelf(s[1..], target);
        assert [s[0]] + s[1..] == s;
      }
    } else if |s| < |target| {
    } else if s[..|target|] == target {
      ReplaceAllBySelf(s[|target|..], target);
      assert s[..|target|] + s[|target|..] == s;
    } else {
      ReplaceAllBySelf(s[1..], target);
      assert [s[0]] + s[1..] == s;
    }
  }

  /** A prefix in which no match starts is copied to the output unchanged. */
  lemma {:induction false} ReplaceAllSkipsPrefix(p: string, s: string, target: string, v: string)
    requires |target| > 0
    requires forall j: nat :: j < |p| ==> !OccursAt(p + s, target, j)
    ensures ReplaceAll(p + s, target, v) == p + ReplaceAll(s, target, v)
    decreases |p|
  {
    if |p| > 0 {
      var ps := p + s;
      assert ps[1..] == p[1..] + s;
      forall j: nat | j < |p[1..]|
        ensures !OccursAt(p[1..] + s, target, j)
      {
        OccursInTail(ps, target, j);
      }
      ReplaceAllSkipsPrefix(p[1..], s, target, v);
      assert !OccursAt(ps, target, 0);
      FrontCopied(ps, target, v);
      assert ps[0] == p[0];
      assert ReplaceAll(ps, target, v) == [p[0]] + (p[1..] + ReplaceAll(s, target, v));
      assert [p[0]] + (p[1..] + ReplaceAll(s, target, v)) == ([p[0]] + p[1..]) + ReplaceAll(s, target, v);
      assert [p[0]] + p[1..] == p;
    } else {
      assert p + s == s;
    }
  }

  /** A first character that does not start a match is copied to the output. */
  lemma {:induction false} FrontCopied(s: string, target: string, v: string)
    requires |target| > 0 && |s| > 0 && !OccursAt(s, target, 0)
    ensures ReplaceAll(s, target, v) == [s[0]] + ReplaceAll(s[1..], target, v)
  {
    if |s| < |target| {
      ReplaceAllWithoutMatch(s[1..], target, v);
      assert [s[0]] + s[1..] == s;
    }
  }

  /** A match at the front is replaced and scanning resumes after it. */
  lemma {:induction false} ReplaceAllAtMatch(s: string, target: string, v: string)
    requires |target| > 0
    ensures ReplaceAll(target + s, target, v) == v + ReplaceAll(s, target, v)
  {
    assert (target + s)[..|target|] == target;
    assert (target + s)[|target|..] == s;
  }

  /** A prefix without the target's first character is copied to the output unchanged. */
  lemma {:induction false} ReplaceAllSkipsPlainPrefix(p: string, s: string, target: string, v: string)
    requires |target| > 0 && target[0] !in p
    ensures ReplaceAll(p + s, target, v) == p + ReplaceAll(s, target, v)
  {
    forall j: nat | j < |p|
      ensures !OccursAt(p + s, target, j)
    {
      assert (p + s)[j] == p[j];
    }
    ReplaceAllSkipsPrefix(p, s, target, v);
  }

  /** Text without the target's first character is left untouched. */
  lemma ReplaceAllWithoutLead(s: string, target: string, v: string)
    requires |target| > 0 && target[0] !in s
    ensures ReplaceAll(s, target, v) == s
  {
    ReplaceAllSkipsPlainPrefix(s, [], target, v);
    assert s + [] == s;
  }
}
