/**
 The two wildcard matchers: the iterative matcher for one path segment
 (crates/config-types) and the split-and-find matcher for approval rules
 (crates/core). Both are proved equal to one declarative language.
 */
module Wildcards {
  import opened Basics
  import opened Text

  /** Whether pattern character `c`, not a star, accepts `x`; `one` makes `?` stand for any character. */
  predicate Fits(c: char, x: char, one: bool) {
    (one && c == '?') || c == x
  }

  /** The language of a pattern: `*` is any run of characters. */
  predicate InLanguage(p: string, s: string, one: bool)
    decreases |p|
  {
    if p == "" then s == ""
    else if p[0] == '*' then exists k | 0 <= k <= |s| :: InLanguage(p[1..], s[k..], one)
    else s != "" && Fits(p[0], s[0], one) && InLanguage(p[1..], s[1..], one)
  }

  /** Some suffix of `s` beginning at `from` or later is in the language of `p`. */
  predicate FromOnwards(p: string, s: string, from: nat, one: bool) {
    exists k | from <= k <= |s| :: InLanguage(p, s[k..], one)
  }

  /** `w` is free of stars and accepts the beginning of `s`, character by character. */
  predicate FitsPrefix(w: string, s: string, one: bool) {
    |w| <= |s| && forall i | 0 <= i < |w| :: w[i] != '*' && Fits(w[i], s[i], one)
  }

  // A star-free prefix consumes exactly its own length.
  lemma {:induction false} StarFreePrefix(w: string, rest: string, s: string, one: bool)
    requires '*' !in w
    ensures InLanguage(w + rest, s, one) <==> FitsPrefix(w, s, one) && InLanguage(rest, s[|w|..], one)
  {
    if w == "" {
      assert w + rest == rest;
      assert s[0..] == s;
    } else {
      assert (w + rest)[1..] == w[1..] + rest;
      if s != "" {
        StarFreePrefix(w[1..], rest, s[1..], one);
        if FitsPrefix(w, s, one) {
          assert forall i | 0 <= i < |w| - 1 :: w[1..][i] == w[i + 1] && s[1..][i] == s[i + 1];
          assert s[1..][|w| - 1..] == s[|w|..];
        }
        if Fits(w[0], s[0], one) && FitsPrefix(w[1..], s[1..], one) {
          forall i | 0 <= i < |w|
            ensures w[i] != '*' && Fits(w[i], s[i], one)
          {
            if i > 0 {
              assert w[i] == w[1..][i - 1] && s[i] == s[1..][i - 1];
            }
          }
          assert s[1..][|w| - 1..] == s[|w|..];
        }
      }
    }
  }

  lemma {:induction false} StarFreeWord(w: string, s: string, one: bool)
    requires '*' !in w
    ensures InLanguage(w, s, one) <==> |w| == |s| && FitsPrefix(w, s, one)
  {
    StarFreePrefix(w, "", s, one);
    assert w + "" == w;
  }

  lemma {:induction false} OnlyStarsAcceptEmpty(p: string, one: bool)
    ensures InLanguage(p, "", one) <==> forall i | 0 <= i < |p| :: p[i] == '*'
  {
    if p != "" {
      OnlyStarsAcceptEmpty(p[1..], one);
      if p[0] == '*' {
        assert ""[0..] == "";
        assert forall i | 0 < i < |p| :: p[i] == p[1..][i - 1];
        assert forall i | 0 <= i < |p| - 1 :: p[1..][i] == p[i + 1];
      }
    }
  }

  // ----- The iterative matcher -----

  /** The part of the pattern after the most recent star, which is all that is ever retried. */
  function Base(star: Option<nat>): nat {
    if star.Some? then star.value + 1 else 0
  }

  /** What remains to be decided when matching may restart at `resume` or later. */
  predicate Open(pattern: string, segment: string, star: Option<nat>, resume: nat)
    requires Base(star) <= |pattern| && resume <= |segment|
  {
    if star.Some? then FromOnwards(pattern[Base(star)..], segment, resume, true)
    else InLanguage(pattern, segment, true)
  }

  /** The characters between the most recent star and `p` accept those from `resume` to `s`. */
  predicate Aligned(pattern: string, segment: string, base: nat, p: nat, resume: nat, s: nat) {
    && base <= p <= |pattern| && resume <= s <= |segment| && p - base == s - resume
    && '*' !in pattern[base..p]
    && FitsPrefix(pattern[base..p], segment[resume..], true)
  }

  lemma AlignedExtends(pattern: string, segment: string, base: nat, p: nat, resume: nat, s: nat)
    requires Aligned(pattern, segment, base, p, resume, s)
    requires p < |pattern| && s < |segment| && pattern[p] != '*' && Fits(pattern[p], segment[s], true)
    ensures Aligned(pattern, segment, base, p + 1, resume, s + 1)
  {
    assert pattern[base..p + 1] == pattern[base..p] + [pattern[p]];
    assert segment[resume..][s - resume] == segment[s];
  }

  lemma AlignedMeans(pattern: string, segment: string, base: nat, p: nat, resume: nat, s: nat)
    requires Aligned(pattern, segment, base, p, resume, s)
    ensures InLanguage(pattern[base..], segment[resume..], true) <==> InLanguage(pattern[p..], segment[s..], true)
  {
    StarFreePrefix(pattern[base..p], pattern[p..], segment[resume..], true);
    assert pattern[base..p] + pattern[p..] == pattern[base..];
    assert segment[resume..][p - base..] == segment[s..];
  }

  // Whatever an earlier star could still try, a new star at `p` reaches as well.
  lemma NewStarReaches(pattern: string, segment: string, base: nat, p: nat, resume: nat, s: nat, k: nat)
    requires Aligned(pattern, segment, base, p, resume, s)
    requires p < |pattern| && pattern[p] == '*'
    requires resume <= k <= |segment| && InLanguage(pattern[base..], segment[k..], true)
    ensures FromOnwards(pattern[p + 1..], segment, s, true)
  {
    var w, tail := pattern[base..p], pattern[p..];
    assert w + tail == pattern[base..];
    StarFreePrefix(w, tail, segment[k..], true);
    var at := k + |w|;
    assert segment[k..][|w|..] == segment[at..];
    assert tail[1..] == pattern[p + 1..];
    var j :| 0 <= j <= |segment[at..]| && InLanguage(tail[1..], segment[at..][j..], true);
    assert segment[at..][j..] == segment[at + j..];
  }

  // ... and reaches nothing the current alignment does not allow.
  lemma NewStarIsSound(pattern: string, segment: string, base: nat, p: nat, resume: nat, s: nat, k: nat)
    requires Aligned(pattern, segment, base, p, resume, s)
    requires p < |pattern| && pattern[p] == '*'
    requires s <= k <= |segment| && InLanguage(pattern[p + 1..], segment[k..], true)
    ensures InLanguage(pattern[base..], segment[resume..], true)
  {
    assert segment[s..][k - s..] == segment[k..];
    assert pattern[p..][1..] == pattern[p + 1..];
    assert InLanguage(pattern[p..], segment[s..], true);
    AlignedMeans(pattern, segment, base, p, resume, s);
  }

  // Only the newest star ever has to be retried.
  lemma NewestStarSuffices(pattern: string, segment: string, star: Option<nat>, p: nat, resume: nat, s: nat)
    requires star.Some? ==> star.value < p
    requires star.None? ==> resume == 0
    requires Aligned(pattern, segment, Base(star), p, resume, s)
    requires p < |pattern| && pattern[p] == '*'
    ensures Open(pattern, segment, star, resume) <==> Open(pattern, segment, Some(p), s)
  {
    var base := Base(star);
    assert segment[0..] == segment && pattern[0..] == pattern;
    if Open(pattern, segment, star, resume) {
      var k: nat :| resume <= k <= |segment| && InLanguage(pattern[base..], segment[k..], true);
      NewStarReaches(pattern, segment, base, p, resume, s, k);
    }
    if Open(pattern, segment, Some(p), s) {
      var k: nat :| s <= k <= |segment| && InLanguage(pattern[p + 1..], segment[k..], true);
      NewStarIsSound(pattern, segment, base, p, resume, s, k);
    }
  }

  // A mismatch rules out the current starting point and nothing else.
  lemma MismatchAdvances(pattern: string, segment: string, star: Option<nat>, p: nat, resume: nat, s: nat)
    requires star.Some? ==> star.value < p
    requires star.None? ==> resume == 0
    requires Aligned(pattern, segment, Base(star), p, resume, s)
    requires s < |segment|
    requires p < |pattern| ==> pattern[p] != '*' && !Fits(pattern[p], segment[s], true)
    ensures star.None? ==> !InLanguage(pattern, segment, true)
    ensures star.Some? ==> (Open(pattern, segment, star, resume) <==> Open(pattern, segment, star, resume + 1))
  {
    AlignedMeans(pattern, segment, Base(star), p, resume, s);
    assert !InLanguage(pattern[p..], segment[s..], true);
    assert segment[0..] == segment && pattern[0..] == pattern;
  }

  // When the segment is used up, what is left of the pattern must be stars.
  lemma ExhaustedDecides(pattern: string, segment: string, star: Option<nat>, p: nat, resume: nat)
    requires star.Some? ==> star.value < p
    requires star.None? ==> resume == 0
    requires Aligned(pattern, segment, Base(star), p, resume, |segment|)
    ensures Open(pattern, segment, star, resume) <==> forall i | p <= i < |pattern| :: pattern[i] == '*'
  {
    var base := Base(star);
    AlignedMeans(pattern, segment, base, p, resume, |segment|);
    assert segment[|segment|..] == "";
    OnlyStarsAcceptEmpty(pattern[p..], true);
    assert forall i | p <= i < |pattern| :: pattern[i] == pattern[p..][i - p];
    assert pattern[base..p] + pattern[p..] == pattern[base..];
    forall k | resume <= k <= |segment| && InLanguage(pattern[base..], segment[k..], true)
      ensures k == resume
    {
      StarFreePrefix(pattern[base..p], pattern[p..], segment[k..], true);
    }
    assert segment[0..] == segment && pattern[0..] == pattern;
  }

  // One pattern character accepts one character: itself, and `?` any.
  lemma OneCharacter(c: char, s: string, one: bool)
    requires c != '*'
    ensures InLanguage([c], s, one) <==> |s| == 1 && ((one && c == '?') || s[0] == c)
  {
    assert |s| == 1 ==> s[1..] == "";
  }

  method SegmentMatch(pattern: string, segment: string) returns (r: bool)
    ensures r <==> InLanguage(pattern, segment, true)
  {
    var p, s := 0, 0;
    var star: Option<nat>, resume := None, 0;
    while s < |segment|
      invariant star.Some? ==> star.value < p
      invariant star.None? ==> resume == 0
      invariant Aligned(pattern, segment, Base(star), p, resume, s)
      invariant InLanguage(pattern, segment, true) <==> Open(pattern, segment, star, resume)
      decreases |segment| - resume, |pattern| - p
    {
      if p < |pattern| && pattern[p] == '*' {
        NewestStarSuffices(pattern, segment, star, p, resume, s);
        star := Some(p);
        resume := s;
        p := p + 1;
      } else if p < |pattern| && (pattern[p] == '?' || pattern[p] == segment[s]) {
        AlignedExtends(pattern, segment, Base(star), p, resume, s);
        p := p + 1;
        s := s + 1;
      } else {
        MismatchAdvances(pattern, segment, star, p, resume, s);
        if star.None? {
          return false;
        }
        p := star.value + 1;
        resume := resume + 1;
        s := resume;
      }
    }
    ExhaustedDecides(pattern, segment, star, p, resume);
    r := forall i | p <= i < |pattern| :: pattern[i] == '*';
  }

  // ----- The split-and-find matcher -----

  lemma {:induction false} LongerSuffix(p: string, s: string, from: nat, one: bool)
    requires p != "" && p[0] == '*' && from <= |s|
    requires InLanguage(p, s[from..], one)
    ensures InLanguage(p, s, one)
  {
    var k :| 0 <= k <= |s| - from && InLanguage(p[1..], s[from..][k..], one);
    assert s[from..][k..] == s[from + k..];
  }

  lemma WordAtFront(w: string, s: string)
    requires '*' !in w
    ensures FitsPrefix(w, s, false) <==> w <= s
  {
    if FitsPrefix(w, s, false) {
      assert w == s[..|w|];
    }
  }

  // A star-free part at the front of a pattern has to be there literally.
  lemma PartAtFront(part: string, tail: string, s: string)
    requires '*' !in part
    ensures InLanguage(part + tail, s, false) <==> part <= s && InLanguage(tail, s[|part|..], false)
  {
    StarFreePrefix(part, tail, s, false);
    WordAtFront(part, s);
  }

  lemma PartIsWord(part: string, s: string)
    requires '*' !in part
    ensures InLanguage(part, s, false) <==> part == s
  {
    PartAtFront(part, "", s);
    assert part + "" == part;
  }

  // Placing `part` further right leaves less to match the rest of the pattern with.
  lemma LaterLeavesLess(part: string, tail: string, rest: string, at: nat, k: nat)
    requires '*' !in part && tail != "" && tail[0] == '*'
    requires at <= k && k + |part| <= |rest|
    requires InLanguage(tail, rest[k + |part|..], false)
    ensures InLanguage(tail, rest[at + |part|..], false)
  {
    var left := rest[at + |part|..];
    assert rest[k + |part|..] == left[k - at..];
    LongerSuffix(tail, left, k - at, false);
  }

  /** The part occurs at `k` and the rest of the pattern accepts what follows it. */
  predicate Placed(part: string, tail: string, rest: string, k: nat) {
    OccursAt(rest, part, k) && InLanguage(tail, rest[k + |part|..], false)
  }

  predicate Placeable(part: string, tail: string, rest: string) {
    exists k: nat | k <= |rest| :: Placed(part, tail, rest, k)
  }

  lemma PlacedMeans(part: string, tail: string, rest: string, k: nat)
    requires '*' !in part && k <= |rest|
    ensures InLanguage(part + tail, rest[k..], false) <==> Placed(part, tail, rest, k)
  {
    PartAtFront(part, tail, rest[k..]);
    if part <= rest[k..] {
      assert rest[k..][|part|..] == rest[k + |part|..];
    }
  }

  // A star followed by a star-free part asks for some place where the part occurs.
  lemma StarThenPart(part: string, tail: string, rest: string)
    requires '*' !in part
    ensures InLanguage("*" + (part + tail), rest, false) <==> Placeable(part, tail, rest)
  {
    assert ("*" + (part + tail))[1..] == part + tail;
    if InLanguage("*" + (part + tail), rest, false) {
      var k: nat :| k <= |rest| && InLanguage(part + tail, rest[k..], false);
      PlacedMeans(part, tail, rest, k);
    }
    if k: nat :| Placed(part, tail, rest, k) {
      PlacedMeans(part, tail, rest, k);
    }
  }

  // The rest of the pattern decides where the leftmost occurrence ends.
  lemma LeftmostDecides(part: string, tail: string, rest: string, at: nat)
    requires '*' !in part && tail != "" && tail[0] == '*'
    requires Find(rest, part) == Some(at)
    ensures Placeable(part, tail, rest) <==> InLanguage(tail, rest[at + |part|..], false)
  {
    FindOccurs(rest, part);
    if k: nat :| Placed(part, tail, rest, k) {
      FindIsLeftmost(rest, part, k);
      LaterLeavesLess(part, tail, rest, at, k);
    }
    if InLanguage(tail, rest[at + |part|..], false) {
      assert Placed(part, tail, rest, at);
    }
  }

  lemma NowhereToPlace(part: string, tail: string, rest: string)
    requires Find(rest, part) == None
    ensures !Placeable(part, tail, rest)
  {
    if k: nat :| Placed(part, tail, rest, k) {
      FindIsLeftmost(rest, part, k);
    }
  }

  // Taking the leftmost occurrence loses nothing.
  lemma LeftmostSuffices(part: string, tail: string, rest: string)
    requires '*' !in part && tail != "" && tail[0] == '*'
    ensures match Find(rest, part)
            case None => !InLanguage("*" + (part + tail), rest, false)
            case Some(at) =>
              InLanguage("*" + (part + tail), rest, false) <==> InLanguage(tail, rest[at + |part|..], false)
  {
    StarThenPart(part, tail, rest);
    match Find(rest, part)
    case None => NowhereToPlace(part, tail, rest);
    case Some(at) => LeftmostDecides(part, tail, rest, at);
  }

  predicate EndsWith(s: string, last: string) {
    |last| <= |s| && s[|s| - |last|..] == last
  }

  // After the last star, the remaining part must be a suffix.
  lemma LastPartIsSuffix(last: string, rest: string)
    requires '*' !in last
    ensures InLanguage("*" + last, rest, false) <==> EndsWith(rest, last)
  {
    assert ("*" + last)[1..] == last;
    forall k | 0 <= k <= |rest|
      ensures InLanguage(last, rest[k..], false) <==> rest[k..] == last
    {
      PartIsWord(last, rest[k..]);
    }
    if EndsWith(rest, last) {
      assert InLanguage(last, rest[|rest| - |last|..], false);
    }
  }

  /** What a name must still match once everything before the parts from `i` on has been placed. */
  function Remaining(parts: seq<string>, i: nat): (p: string)
    requires i < |parts|
    ensures p != "" && p[0] == '*'
  {
    "*" + Join(parts[i..], '*')
  }

  lemma RemainingStep(parts: seq<string>, i: nat, rest: string)
    requires i + 1 < |parts| && '*' !in parts[i]
    ensures match Find(rest, parts[i])
            case None => !InLanguage(Remaining(parts, i), rest, false)
            case Some(at) =>
              InLanguage(Remaining(parts, i), rest, false) <==>
              InLanguage(Remaining(parts, i + 1), rest[at + |parts[i]|..], false)
  {
    assert parts[i..][1..] == parts[i + 1..];
    assert Join(parts[i..], '*') == parts[i] + Remaining(parts, i + 1);
    LeftmostSuffices(parts[i], Remaining(parts, i + 1), rest);
  }

  lemma FirstPart(pattern: string, name: string)
    ensures var parts := Split(pattern, '*');
            InLanguage(pattern, name, false) <==>
            parts[0] <= name &&
            var rest := name[|parts[0]|..];
            if |parts| == 1 then rest == "" else InLanguage(Remaining(parts, 1), rest, false)
  {
    var parts := Split(pattern, '*');
    SplitInverse(pattern, '*');
    if |parts| == 1 {
      PartIsWord(parts[0], name);
    } else {
      assert pattern == parts[0] + Remaining(parts, 1);
      PartAtFront(parts[0], Remaining(parts, 1), name);
    }
  }

  /** The star language with the case of ASCII letters ignored. */
  predicate MatchesIgnoringCase(p: string, s: string)
    decreases |p|
  {
    if p == "" then s == ""
    else if p[0] == '*' then exists k | 0 <= k <= |s| :: MatchesIgnoringCase(p[1..], s[k..])
    else s != "" && SameLetter(p[0], s[0]) && MatchesIgnoringCase(p[1..], s[1..])
  }

  lemma LowerDrops(s: string, k: nat)
    requires k <= |s|
    ensures Lower(s)[k..] == Lower(s[k..])
  {
  }

  // Matching in lower case is matching with the case ignored.
  lemma {:induction false} LowerLanguage(p: string, s: string)
    ensures InLanguage(Lower(p), Lower(s), false) <==> MatchesIgnoringCase(p, s)
    decreases |p|
  {
    if p != "" {
      LowerDrops(p, 1);
      LowerCharMeans(p[0], '*');
      if p[0] == '*' {
        forall k | 0 <= k <= |s|
          ensures InLanguage(Lower(p)[1..], Lower(s)[k..], false) <==> MatchesIgnoringCase(p[1..], s[k..])
        {
          LowerDrops(s, k);
          LowerLanguage(p[1..], s[k..]);
        }
      } else if s != "" {
        assert !SameLetter(p[0], '*');
        LowerDrops(s, 1);
        LowerCharMeans(p[0], s[0]);
        LowerLanguage(p[1..], s[1..]);
      }
    }
  }

  method GlobMatches(rule: string, toolName: string) returns (r: bool)
    ensures r <==> MatchesIgnoringCase(rule, toolName)
  {
    LowerLanguage(rule, toolName);
    var pattern, name := Lower(rule), Lower(toolName);
    var parts := Split(pattern, '*');
    SplitInverse(pattern, '*');
    FirstPart(pattern, name);
    var first := parts[0];
    if !(first <= name) {
      return false;
    }
    var rest := name[|first|..];
    if |parts| == 1 {
      return rest == "";
    }
    var last := parts[|parts| - 1];
    var i := 1;
    while i < |parts| - 1
      invariant 1 <= i <= |parts| - 1
      invariant InLanguage(pattern, name, false) <==> InLanguage(Remaining(parts, i), rest, false)
    {
      RemainingStep(parts, i, rest);
      var found := Find(rest, parts[i]);
      if found.None? {
        return false;
      }
      rest := rest[found.value + |parts[i]|..];
      i := i + 1;
    }
    assert Remaining(parts, i) == "*" + last;
    LastPartIsSuffix(last, rest);
    r := EndsWith(rest, last);
  }

  // ----- The two matchers compared -----

  lemma {:induction false} SameWithoutQuestionMark(p: string, s: string)
    requires '?' !in p
    ensures InLanguage(p, s, true) <==> InLanguage(p, s, false)
    decreases |p|
  {
    if p != "" {
      if p[0] == '*' {
        forall k | 0 <= k <= |s|
          ensures InLanguage(p[1..], s[k..], true) <==> InLanguage(p[1..], s[k..], false)
        {
          SameWithoutQuestionMark(p[1..], s[k..]);
        }
      } else if s != "" {
        SameWithoutQuestionMark(p[1..], s[1..]);
      }
    }
  }

  /** A shortest member: stars dropped, every `?` made an `a`. */
  function Sample(p: string): string {
    if p == "" then ""
    else if p[0] == '*' then Sample(p[1..])
    else [if p[0] == '?' then 'a' else p[0]] + Sample(p[1..])
  }

  lemma {:induction false} SampleMatches(p: string)
    ensures InLanguage(p, Sample(p), true)
    ensures '?' !in Sample(p)
  {
    if p != "" {
      SampleMatches(p[1..]);
      if p[0] == '*' {
        assert Sample(p)[0..] == Sample(p[1..]);
      } else {
        assert Sample(p)[1..] == Sample(p[1..]);
      }
    }
  }

  // Where `?` is a character like any other, every character of the pattern but
  // the star occurs in what it accepts.
  lemma {:induction false} LiteralOccurs(p: string, s: string, c: char)
    requires c != '*' && c in p && InLanguage(p, s, false)
    ensures c in s
    decreases |p|
  {
    if p[0] == '*' {
      var k :| 0 <= k <= |s| && InLanguage(p[1..], s[k..], false);
      LiteralOccurs(p[1..], s[k..], c);
    } else if p[0] != c {
      LiteralOccurs(p[1..], s[1..], c);
    }
  }

  // The two matchers decide the same names for exactly the patterns without `?`.
  lemma MatchersAgree(p: string)
    ensures (forall s :: InLanguage(p, s, true) <==> InLanguage(p, s, false)) <==> '?' !in p
  {
    if '?' !in p {
      forall s
        ensures InLanguage(p, s, true) <==> InLanguage(p, s, false)
      {
        SameWithoutQuestionMark(p, s);
      }
    } else {
      SampleMatches(p);
      if InLanguage(p, Sample(p), false) {
        LiteralOccurs(p, Sample(p), '?');
      }
      assert InLanguage(p, Sample(p), true) != InLanguage(p, Sample(p), false);
    }
  }
}
