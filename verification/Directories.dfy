/** Directory patterns: `**` over path segments (crates/config-types). */
module Directories {
  import opened Basics
  import opened Text
  import opened Wildcards

  const ANY_RUN := "**"

  predicate SegmentsMatch(pattern: seq<string>, path: seq<string>)
    decreases |pattern|
  {
    if pattern == [] then path == []
    else if pattern[0] == ANY_RUN then
      exists taken | 0 <= taken <= |path| :: SegmentsMatch(pattern[1..], path[taken..])
    else path != [] && InLanguage(pattern[0], path[0], true) && SegmentsMatch(pattern[1..], path[1..])
  }

  /** `path` cut at `n` gives a part for `p` and a part for `q`. */
  predicate Cut(p: seq<string>, q: seq<string>, path: seq<string>, n: nat) {
    n <= |path| && SegmentsMatch(p, path[..n]) && SegmentsMatch(q, path[n..])
  }

  // Matching is compositional: a pattern in two parts matches exactly the paths
  // that can be cut into a part for each.
  lemma {:induction false} PatternConcat(p: seq<string>, q: seq<string>, path: seq<string>)
    ensures SegmentsMatch(p + q, path) <==> exists n: nat :: Cut(p, q, path, n)
    decreases |p|
  {
    if p == [] {
      assert p + q == q && path[0..] == path && path[..0] == [];
      assert Cut(p, q, path, 0) <==> SegmentsMatch(q, path);
    } else {
      assert (p + q)[1..] == p[1..] + q;
      if p[0] == ANY_RUN {
        AnyRunConcat(p, q, path);
      } else if path != [] {
        PatternConcat(p[1..], q, path[1..]);
        forall n: nat | n < |path|
          ensures Cut(p, q, path, n + 1) <==> InLanguage(p[0], path[0], true) && Cut(p[1..], q, path[1..], n)
        {
          assert path[..n + 1][1..] == path[1..][..n] && path[1..][n..] == path[n + 1..];
        }
        assert !Cut(p, q, path, 0);
        assert forall n: nat | Cut(p, q, path, n) :: Cut(p[1..], q, path[1..], n - 1);
      }
    }
  }

  lemma {:induction false} AnyRunConcat(p: seq<string>, q: seq<string>, path: seq<string>)
    requires p != [] && p[0] == ANY_RUN
    ensures SegmentsMatch(p + q, path) <==> exists n: nat :: Cut(p, q, path, n)
    decreases |p|, 0
  {
    assert (p + q)[1..] == p[1..] + q;
    forall taken | 0 <= taken <= |path| && SegmentsMatch(p[1..] + q, path[taken..])
      ensures exists n: nat :: Cut(p, q, path, n)
    {
      PatternConcat(p[1..], q, path[taken..]);
      var n: nat :| Cut(p[1..], q, path[taken..], n);
      assert path[taken..][..n] == path[..taken + n][taken..] && path[taken..][n..] == path[taken + n..];
      assert Cut(p, q, path, taken + n);
    }
    forall n: nat | Cut(p, q, path, n)
      ensures SegmentsMatch(p + q, path)
    {
      var taken :| 0 <= taken <= n && SegmentsMatch(p[1..], path[..n][taken..]);
      assert path[..n][taken..] == path[taken..][..n - taken] && path[taken..][n - taken..] == path[n..];
      assert Cut(p[1..], q, path[taken..], n - taken);
      PatternConcat(p[1..], q, path[taken..]);
    }
  }

  lemma AnyRunMatchesAll(path: seq<string>)
    ensures SegmentsMatch([ANY_RUN], path)
  {
    assert [ANY_RUN][1..] == [] && path[|path|..] == [];
  }

  // `p/**` names everything `p` names and everything beneath it.
  lemma TrailingAnyRun(p: seq<string>, path: seq<string>)
    ensures SegmentsMatch(p + [ANY_RUN], path) <==> exists n | 0 <= n <= |path| :: SegmentsMatch(p, path[..n])
  {
    PatternConcat(p, [ANY_RUN], path);
    forall n: nat | n <= |path|
      ensures Cut(p, [ANY_RUN], path, n) <==> SegmentsMatch(p, path[..n])
    {
      AnyRunMatchesAll(path[n..]);
    }
  }

  lemma AnyRunsCollapse(p: seq<string>, q: seq<string>, path: seq<string>)
    ensures SegmentsMatch(p + [ANY_RUN, ANY_RUN] + q, path) <==> SegmentsMatch(p + [ANY_RUN] + q, path)
  {
    forall rest: seq<string>
      ensures SegmentsMatch([ANY_RUN, ANY_RUN], rest) && SegmentsMatch([ANY_RUN], rest)
    {
      AnyRunMatchesAll(rest);
      assert [ANY_RUN, ANY_RUN][1..] == [ANY_RUN] && rest[0..] == rest;
    }
    forall mid: seq<string>
      ensures SegmentsMatch([ANY_RUN, ANY_RUN] + q, mid) <==> SegmentsMatch([ANY_RUN] + q, mid)
    {
      PatternConcat([ANY_RUN, ANY_RUN], q, mid);
      PatternConcat([ANY_RUN], q, mid);
      assert forall n: nat :: Cut([ANY_RUN, ANY_RUN], q, mid, n) <==> Cut([ANY_RUN], q, mid, n);
    }
    assert forall n: nat :: Cut(p, [ANY_RUN, ANY_RUN] + q, path, n) <==> Cut(p, [ANY_RUN] + q, path, n);
    PatternConcat(p, [ANY_RUN, ANY_RUN] + q, path);
    PatternConcat(p, [ANY_RUN] + q, path);
    assert p + [ANY_RUN, ANY_RUN] + q == p + ([ANY_RUN, ANY_RUN] + q);
    assert p + [ANY_RUN] + q == p + ([ANY_RUN] + q);
  }

  // Without `**` a pattern is matched segment by segment.
  lemma {:induction false} FixedLength(p: seq<string>, path: seq<string>)
    requires ANY_RUN !in p
    ensures SegmentsMatch(p, path) <==> |p| == |path| && forall i | 0 <= i < |p| :: InLanguage(p[i], path[i], true)
  {
    if p != [] && path != [] {
      FixedLength(p[1..], path[1..]);
      assert forall i | 0 <= i < |p| && i < |path| ::
          p[i] == ([p[0]] + p[1..])[i] && path[i] == ([path[0]] + path[1..])[i];
    }
  }

  // ----- Patterns and paths as text -----

  predicate GlobMatch(pattern: string, path: string) {
    SegmentsMatch(Split(pattern, '/'), Split(path, '/'))
  }

  predicate Plain(s: string) {
    '*' !in s && '?' !in s
  }

  lemma PlainWord(w: string, s: string)
    requires Plain(w)
    ensures InLanguage(w, s, true) <==> w == s
  {
    StarFreeWord(w, s, true);
  }

  lemma {:induction false} PlainParts(s: string)
    requires Plain(s)
    ensures ANY_RUN !in Split(s, '/') && forall i | 0 <= i < |Split(s, '/')| :: Plain(Split(s, '/')[i])
  {
    if s != "" {
      PlainParts(s[1..]);
    }
    assert forall part | part in Split(s, '/') :: Plain(part);
    assert ANY_RUN[0] == '*';
  }

  lemma PlainSegments(base: string, path: seq<string>)
    requires Plain(base)
    ensures SegmentsMatch(Split(base, '/'), path) <==> Split(base, '/') == path
  {
    var parts := Split(base, '/');
    PlainParts(base);
    FixedLength(parts, path);
    if |parts| == |path| {
      forall i | 0 <= i < |parts|
        ensures InLanguage(parts[i], path[i], true) <==> parts[i] == path[i]
      {
        PlainWord(parts[i], path[i]);
      }
    }
  }

  lemma {:induction false} JoinConcat(a: seq<string>, b: seq<string>, sep: char)
    requires |a| >= 1 && |b| >= 1
    ensures Join(a + b, sep) == Join(a, sep) + [sep] + Join(b, sep)
  {
    if |a| > 1 {
      JoinConcat(a[1..], b, sep);
      assert (a + b)[1..] == a[1..] + b;
    } else {
      assert (a + b)[1..] == b;
    }
  }

  lemma PrefixJoins(base: string, path: string)
    requires Split(base, '/') <= Split(path, '/')
    ensures path == base || base + "/" <= path
  {
    var b, w := Split(base, '/'), Split(path, '/');
    SplitInverse(base, '/');
    SplitInverse(path, '/');
    if b != w {
      JoinConcat(b, w[|b|..], '/');
      assert w == b + w[|b|..];
    }
  }

  lemma JoinedPrefix(base: string, path: string)
    requires base + "/" <= path
    ensures Split(base, '/') <= Split(path, '/')
  {
    var rest := path[|base| + 1..];
    assert path == base + ['/'] + rest;
    SplitConcat(base, rest, '/');
  }

  lemma SplitPrefix(base: string, path: string)
    ensures Split(base, '/') <= Split(path, '/') <==> path == base || base + "/" <= path
  {
    if Split(base, '/') <= Split(path, '/') {
      PrefixJoins(base, path);
    } else if base + "/" <= path {
      JoinedPrefix(base, path);
    }
  }

  // `base/**` is `base` itself and every path that goes on from it.
  lemma GlobTree(base: string, path: string)
    requires Plain(base)
    ensures GlobMatch(base + "/**", path) <==> path == base || base + "/" <= path
  {
    assert base + "/**" == base + ['/'] + ANY_RUN;
    SplitConcat(base, ANY_RUN, '/');
    SplitNone(ANY_RUN, '/');
    var w := Split(path, '/');
    assert Split(base + "/**", '/') == Split(base, '/') + [ANY_RUN];
    TrailingAnyRun(Split(base, '/'), w);
    forall n | 0 <= n <= |w|
      ensures SegmentsMatch(Split(base, '/'), w[..n]) <==> Split(base, '/') == w[..n]
    {
      PlainSegments(base, w[..n]);
    }
    assert GlobMatch(base + "/**", path) <==> Split(base, '/') <= w by {
      if Split(base, '/') <= w {
        assert SegmentsMatch(Split(base, '/'), w[..|Split(base, '/')|]);
      }
    }
    SplitPrefix(base, path);
  }

  // ----- Directory overrides -----

  function Slashes(s: string): (r: string)
    ensures |r| == |s| && forall i | 0 <= i < |s| :: r[i] == (if s[i] == '\\' then '/' else s[i])
  {
    seq(|s|, i requires 0 <= i < |s| => if s[i] == '\\' then '/' else s[i])
  }

  function DropLeadingSlashes(s: string): string {
    if s != "" && (s[0] == '/' || s[0] == '\\') then DropLeadingSlashes(s[1..]) else s
  }

  function Normalize(path: string): string {
    var text := Slashes(path);
    var trimmed := DropTrailing(text, '/');
    if trimmed == "" then text else trimmed
  }

  /** Whether an override with this pattern applies to `directory`; a leading `~` is the home directory. */
  predicate OverrideMatches(pattern: string, directory: string, home: Option<string>) {
    if pattern != "" && pattern[0] == '~' then
      home.Some? &&
      var rest := DropLeadingSlashes(pattern[1..]);
      var top := Normalize(home.value);
      GlobMatch(if rest == "" then top else top + "/" + Slashes(rest), Normalize(directory))
    else GlobMatch(Slashes(pattern), Normalize(directory))
  }

  /** The text with every character of `from` made `to`. */
  function Replaced(s: string, from: char, to: char): (r: string)
    ensures |r| == |s|
  {
    if s == "" then "" else [if s[0] == from then to else s[0]] + Replaced(s[1..], from, to)
  }

  lemma {:induction false} SlashesReplaces(s: string)
    ensures Slashes(s) == Replaced(s, '\\', '/')
  {
    if s != "" {
      SlashesReplaces(s[1..]);
      assert Slashes(s) == [if s[0] == '\\' then '/' else s[0]] + Slashes(s[1..]);
    }
  }

  // A pattern without `~` is compared as it stands, whatever the home directory, and
  // one with it applies nowhere without one; `~` alone is the home directory.
  lemma PatternCases(pattern: string, directory: string, home: string)
    requires pattern != "" && pattern[0] != '~'
    ensures forall h :: OverrideMatches(pattern, directory, h) <==>
        GlobMatch(Replaced(pattern, '\\', '/'), Normalize(directory))
    ensures !OverrideMatches("~" + pattern, directory, None)
    ensures OverrideMatches("~", directory, Some(home)) <==> GlobMatch(Normalize(home), Normalize(directory))
    ensures OverrideMatches("~/", directory, Some(home)) <==> GlobMatch(Normalize(home), Normalize(directory))
  {
    SlashesReplaces(pattern);
    assert "~"[1..] == "" && "~/"[1..] == "/" && "/"[1..] == "";
    assert DropLeadingSlashes("/") == DropLeadingSlashes("/"[1..]) == "";
  }

  lemma {:induction false} PlainDropTrailing(s: string)
    requires Plain(s)
    ensures Plain(DropTrailing(s, '/'))
  {
    if s != "" && s[|s| - 1] == '/' {
      PlainDropTrailing(s[..|s| - 1]);
    }
  }

  lemma PlainNormalize(s: string)
    requires Plain(s)
    ensures Plain(Slashes(s)) && Plain(Normalize(s))
  {
    PlainDropTrailing(Slashes(s));
  }

  // For a home directory without wildcards that is that directory alone.
  lemma HomeAlone(directory: string, home: string)
    requires Plain(home)
    ensures OverrideMatches("~", directory, Some(home)) <==> Normalize(directory) == Normalize(home)
  {
    PatternCases("x", directory, home);
    PlainNormalize(home);
    PlainSegments(Normalize(home), Split(Normalize(directory), '/'));
    SplitInverse(Normalize(home), '/');
    SplitInverse(Normalize(directory), '/');
  }

  /** A path that is neither empty nor absolute and has no wildcards. */
  predicate Relative(work: string) {
    work != "" && work[0] != '/' && work[0] != '\\' && Plain(work)
  }

  /** The name of a directory beneath another: such a path that does not end in a slash. */
  predicate Name(work: string) {
    Relative(work) && work[|work| - 1] != '/' && work[|work| - 1] != '\\'
  }

  function HomePattern(work: string): string {
    "~/" + work + "/**"
  }

  // What a `~` pattern is matched as.
  lemma HomePatternIsGlob(work: string, directory: string, home: string)
    requires Relative(work)
    ensures OverrideMatches(HomePattern(work), directory, Some(home)) <==>
            GlobMatch(Normalize(home) + "/" + Slashes(work) + "/**", Normalize(directory))
  {
    var pattern := HomePattern(work);
    assert pattern[1..] == "/" + work + "/**";
    assert pattern[1..][1..] == work + "/**";
    assert DropLeadingSlashes(work + "/**") == work + "/**";
    assert DropLeadingSlashes(pattern[1..]) == DropLeadingSlashes(pattern[1..][1..]);
    assert Slashes(work + "/**") == Slashes(work) + "/**";
    assert Normalize(home) + "/" + Slashes(work + "/**") == Normalize(home) + "/" + Slashes(work) + "/**";
  }

  /** `path` is `root` or lies under it, as text. */
  predicate Under(root: string, path: string) {
    path == root || root + "/" <= path
  }

  /** The path of `name` in the directory `dir`. */
  function Joined(dir: string, name: string): string {
    if dir == "" || dir[|dir| - 1] == '/' then dir + name else dir + "/" + name
  }

  predicate OnlySlashes(s: string) {
    forall i | 0 <= i < |s| :: s[i] == '/' || s[i] == '\\'
  }

  lemma {:induction false} DropTrailingTight(s: string)
    ensures DropTrailing(s, '/') <= s
    ensures DropTrailing(s, '/') == "" <==> forall i | 0 <= i < |s| :: s[i] == '/'
    ensures DropTrailing(s, '/') != "" ==> DropTrailing(s, '/')[|DropTrailing(s, '/')| - 1] != '/'
  {
    if s != "" && s[|s| - 1] == '/' {
      var init := s[..|s| - 1];
      DropTrailingTight(init);
      assert forall i | 0 <= i < |init| :: init[i] == s[i];
    }
  }

  // Normalising leaves no slash at the end, except of a path that is nothing else.
  lemma NormalizeEnds(path: string)
    ensures Normalize(path) <= Slashes(path)
    ensures OnlySlashes(path) ==> Normalize(path) == Slashes(path)
    ensures !OnlySlashes(path) ==> Normalize(path) != "" && Normalize(path)[|Normalize(path)| - 1] != '/'
  {
    DropTrailingTight(Slashes(path));
    assert OnlySlashes(path) <==> forall i | 0 <= i < |path| :: Slashes(path)[i] == '/';
  }

  // `~/work/**` applies to `work` in the home directory and to every directory
  // beneath it, and to nothing else, if the home directory is neither empty nor
  // slashes alone and has no wildcard in it.
  lemma HomeTree(work: string, directory: string, home: string)
    requires Name(work)
    requires Plain(home) && !OnlySlashes(home)
    ensures OverrideMatches(HomePattern(work), directory, Some(home)) <==>
            Under(Joined(Normalize(home), Slashes(work)), Normalize(directory))
  {
    HomePatternIsGlob(work, directory, home);
    PlainNormalize(home);
    NormalizeEnds(home);
    GlobTree(Normalize(home) + "/" + Slashes(work), Normalize(directory));
  }

  // A name written with a slash at the end names nothing that exists: the pattern
  // misses the directory and what lies in it.
  lemma TrailingSlashMisses(work: string, inside: string, home: string)
    requires Name(work) && Plain(home) && !OnlySlashes(home)
    requires inside != "" && inside[0] != '/'
    requires var root := Joined(Normalize(home), Slashes(work));
             Normalize(root) == root && Normalize(root + "/" + inside) == root + "/" + inside
    ensures var root := Joined(Normalize(home), Slashes(work));
            && !OverrideMatches(HomePattern(work + "/"), root, Some(home))
            && !OverrideMatches(HomePattern(work + "/"), root + "/" + inside, Some(home))
  {
    var root := Joined(Normalize(home), Slashes(work));
    NormalizeEnds(home);
    PlainNormalize(home);
    assert Slashes(work + "/") == Slashes(work) + "/";
    assert Normalize(home) + "/" + Slashes(work + "/") == root + "/";
    HomePatternIsGlob(work + "/", root, home);
    HomePatternIsGlob(work + "/", root + "/" + inside, home);
    GlobTree(root + "/", root);
    GlobTree(root + "/", root + "/" + inside);
    assert (root + "/" + inside)[|root| + 1] == inside[0];
  }

  lemma Unchanged(path: string)
    requires path != "" && path[|path| - 1] != '/' && '\\' !in path
    ensures Normalize(path) == path
  {
    assert Slashes(path) == path;
  }

  // With slashes alone as home the pattern has one too many: it misses the very
  // directory it names.
  lemma SlashHomeMisses(home: string, work: string)
    requires OnlySlashes(home) && Name(work) && '\\' !in work
    ensures var directory := Joined(Normalize(home), work);
            Normalize(directory) == directory && !OverrideMatches(HomePattern(work), directory, Some(home))
  {
    NormalizeEnds(home);
    var text := Slashes(home);
    var directory, root := text + work, text + "/" + work;
    assert forall i | 0 <= i < |text| :: text[i] == '/';
    assert directory[|directory| - 1] == work[|work| - 1];
    Unchanged(directory);
    assert Slashes(work) == work;
    HomePatternIsGlob(work, directory, home);
    GlobTree(root, directory);
  }

  lemma RootHomeMisses()
    ensures !OverrideMatches("~/work/**", "/work", Some("/"))
  {
    SlashHomeMisses("/", "work");
    NormalizeEnds("/");
    assert HomePattern("work") == "~/work/**" && Joined("/", "work") == "/work";
    assert Slashes("/") == "/";
  }

  /** A text the pattern `p` accepts that has no wildcard in it. */
  function Tame(p: string): (s: string)
    ensures |s| == |p|
    ensures forall i | 0 <= i < |p| :: s[i] == (if p[i] == '*' || p[i] == '?' then 'x' else p[i])
  {
    if p == "" then "" else [if p[0] == '*' || p[0] == '?' then 'x' else p[0]] + Tame(p[1..])
  }

  function TameAll(parts: seq<string>): seq<string> {
    if parts == [] then [] else [Tame(parts[0])] + TameAll(parts[1..])
  }

  lemma {:induction false} TameFits(p: string)
    ensures InLanguage(p, Tame(p), true)
  {
    if p != "" {
      TameFits(p[1..]);
      assert Tame(p)[1..] == Tame(p[1..]);
    }
  }

  lemma {:induction false} TameAllMatches(parts: seq<string>)
    ensures SegmentsMatch(parts, TameAll(parts))
  {
    if parts != [] {
      TameAllMatches(parts[1..]);
      TameFits(parts[0]);
      assert TameAll(parts)[1..] == TameAll(parts[1..]);
    }
  }

  lemma PrependTame(c: char, parts: seq<string>)
    requires |parts| >= 1
    ensures Prepend(Tame([c])[0], TameAll(parts), '/') == TameAll(Prepend(c, parts, '/'))
  {
    if c == '/' {
      assert ([""] + parts)[1..] == parts;
    } else {
      var first := [c] + parts[0];
      assert ([first] + parts[1..])[1..] == parts[1..];
      assert first[1..] == parts[0];
    }
  }

  lemma {:induction false} SplitTame(s: string)
    ensures Split(Tame(s), '/') == TameAll(Split(s, '/'))
  {
    if s == "" {
      assert TameAll([""]) == [""] + TameAll([""][1..]);
    } else {
      SplitTame(s[1..]);
      assert Tame(s)[1..] == Tame(s[1..]);
      PrependTame(s[0], Split(s[1..], '/'));
    }
  }

  lemma TameGlob(root: string)
    ensures GlobMatch(root + "/**", Tame(root))
  {
    assert root + "/**" == root + ['/'] + ANY_RUN;
    SplitConcat(root, ANY_RUN, '/');
    SplitNone(ANY_RUN, '/');
    SplitTame(root);
    TameAllMatches(Split(root, '/'));
    var parts := Split(Tame(root), '/');
    assert parts[..|parts|] == parts;
    TrailingAnyRun(Split(root, '/'), parts);
  }

  lemma {:induction false} DropTrailingKeepsWildcards(s: string)
    ensures Plain(DropTrailing(s, '/')) ==> Plain(s)
  {
    if s != "" && s[|s| - 1] == '/' {
      DropTrailingKeepsWildcards(s[..|s| - 1]);
      assert s == s[..|s| - 1] + ['/'];
    }
  }

  lemma TamedLiesElsewhere(top: string, work: string)
    requires !Plain(top)
    ensures !Under(top + "/" + work, Tame(top + "/" + work))
  {
    var root := top + "/" + work;
    var i :| 0 <= i < |top| && (top[i] == '*' || top[i] == '?');
    assert root[i] == top[i] && Tame(root)[i] == 'x';
  }

  lemma TamedUnchanged(top: string, work: string)
    requires '\\' !in top && '\\' !in work && work != "" && work[|work| - 1] != '/'
    ensures Normalize(Tame(top + "/" + work)) == Tame(top + "/" + work)
  {
    var root := top + "/" + work;
    assert root[|root| - 1] == work[|work| - 1];
    Unchanged(Tame(root));
  }

  lemma WildcardsStay(home: string)
    requires !Plain(home)
    ensures !OnlySlashes(home) && !Plain(Normalize(home))
  {
    var i :| 0 <= i < |home| && (home[i] == '*' || home[i] == '?');
    assert Slashes(home)[i] == home[i];
    DropTrailingKeepsWildcards(Slashes(home));
  }

  // With a wildcard in the home directory the pattern applies elsewhere as well.
  lemma WildHomeReachesElsewhere(home: string, work: string) returns (directory: string)
    requires !Plain(home) && Name(work) && '\\' !in work
    ensures OverrideMatches(HomePattern(work), directory, Some(home))
    ensures !Under(Joined(Normalize(home), work), Normalize(directory))
  {
    NormalizeEnds(home);
    WildcardsStay(home);
    var top := Normalize(home);
    var root := top + "/" + work;
    directory := Tame(root);
    assert Slashes(work) == work;
    HomePatternIsGlob(work, directory, home);
    TameGlob(root);
    TamedLiesElsewhere(top, work);
    TamedUnchanged(top, work);
  }

  // Exactly the homes for which `~/name/**` is the directory in the home
  // directory and everything beneath it, whatever the name.
  lemma HomeTreeExactlyWhen(home: string)
    ensures (forall work, directory | Name(work) ::
               OverrideMatches(HomePattern(work), directory, Some(home)) <==>
               Under(Joined(Normalize(home), Slashes(work)), Normalize(directory)))
            <==> Plain(home) && !OnlySlashes(home)
  {
    if Plain(home) && !OnlySlashes(home) {
      forall work, directory | Name(work)
        ensures OverrideMatches(HomePattern(work), directory, Some(home)) <==>
                Under(Joined(Normalize(home), Slashes(work)), Normalize(directory))
      {
        HomeTree(work, directory, home);
      }
    } else {
      assert Name("w") && Slashes("w") == "w";
      if OnlySlashes(home) {
        SlashHomeMisses(home, "w");
      } else {
        var directory := WildHomeReachesElsewhere(home, "w");
      }
    }
  }
}
