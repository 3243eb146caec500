/** Approval rules: which tool names always need a person, and what a session remembers. */
module ApprovalRules {
  import opened Basics
  import opened Text
  import opened Wildcards

  /** A rule covers a tool name when the name is in the rule's star language, ignoring ASCII case. */
  predicate Covers(rule: string, tool: string) {
    InLanguage(Lower(rule), Lower(tool), false)
  }

  // Which is a match with the case ignored, so how a rule or a name is written
  // makes no difference.
  lemma CoversMeans(rule: string, tool: string)
    ensures Covers(rule, tool) <==> MatchesIgnoringCase(rule, tool)
  {
    LowerLanguage(rule, tool);
  }

  lemma CaseMakesNoDifference(rule: string, tool: string, rule': string, tool': string)
    requires SameButForCase(rule, rule') && SameButForCase(tool, tool')
    ensures Covers(rule, tool) <==> Covers(rule', tool')
  {
    LowerExactly(rule, rule');
    LowerExactly(tool, tool');
  }

  predicate Covered(rules: seq<string>, tool: string) {
    exists rule | rule in rules :: Covers(rule, tool)
  }

  function TrimAll(rules: seq<string>): (r: seq<string>)
    ensures |r| == |rules| && forall i | 0 <= i < |rules| :: r[i] == Trim(rules[i])
  {
    seq(|rules|, i requires 0 <= i < |rules| => Trim(rules[i]))
  }

  /** The rules with case ignored and repeats forgotten. */
  function Keys(rules: seq<string>): set<string> {
    if rules == [] then {} else {Lower(rules[0])} + Keys(rules[1..])
  }

  lemma {:induction false} KeyOf(rules: seq<string>, key: string)
    ensures key in Keys(rules) <==> exists i | 0 <= i < |rules| :: Lower(rules[i]) == key
  {
    if rules != [] {
      var rest := rules[1..];
      KeyOf(rest, key);
      if i :| 0 <= i < |rules| && Lower(rules[i]) == key && i > 0 {
        assert rest[i - 1] == rules[i];
      }
      if i :| 0 <= i < |rest| && Lower(rest[i]) == key {
        assert rules[i + 1] == rest[i];
      }
    }
  }

  lemma {:induction false} KeysGrow(rules: seq<string>, rule: string)
    ensures Keys(rules + [rule]) == Keys(rules) + {Lower(rule)}
  {
    if rules == [] {
      assert ([] + [rule])[1..] == [];
    } else {
      KeysGrow(rules[1..], rule);
      assert (rules + [rule])[1..] == rules[1..] + [rule];
    }
  }

  predicate NoTwoAlike(rules: seq<string>) {
    forall j, k | 0 <= j < k < |rules| :: Lower(rules[j]) != Lower(rules[k])
  }

  /** Whether some kept rule equals `rule` with ASCII case ignored. */
  predicate Seen(kept: seq<string>, rule: string) {
    exists j | 0 <= j < |kept| :: Lower(kept[j]) == Lower(rule)
  }

  function Keep(kept: seq<string>, rule: string): seq<string> {
    if Seen(kept, rule) then kept else kept + [rule]
  }

  /** What is kept once the rules still to come have been gone through. */
  function DistinctFrom(kept: seq<string>, rules: seq<string>): seq<string>
    decreases |rules|
  {
    if rules == [] then kept else DistinctFrom(Keep(kept, rules[0]), rules[1..])
  }

  /** The rules without those that repeat an earlier one. */
  function Distinct(rules: seq<string>): seq<string> {
    DistinctFrom([], rules)
  }

  method CheckApprovalRules(rules: seq<string>) returns (r: Result<seq<string>, string>)
    ensures r.Err? <==> "" in TrimAll(rules)
    ensures r.Ok? ==> r.value == Distinct(TrimAll(rules))
  {
    var checked: seq<string> := [];
    ghost var given := TrimAll(rules);
    for n := 0 to |rules|
      invariant forall j | 0 <= j < n :: given[j] != ""
      invariant DistinctFrom(checked, given[n..]) == Distinct(given)
    {
      var rule := Trim(rules[n]);
      if rule == "" {
        assert given[n] in given;
        return Err("require_approval entries must not be empty");
      }
      assert given[n..][1..] == given[n + 1..];
      checked := Keep(checked, rule);
    }
    r := Ok(checked);
  }

  lemma KeepKeeps(kept: seq<string>, rule: string)
    ensures Keys(Keep(kept, rule)) == Keys(kept) + {Lower(rule)}
    ensures NoTwoAlike(kept) ==> NoTwoAlike(Keep(kept, rule))
  {
    KeyOf(kept, Lower(rule));
    KeysGrow(kept, rule);
    var all := kept + [rule];
    assert forall j | 0 <= j < |kept| :: all[j] == kept[j];
  }

  // One rule of each kind is kept, and every kind is.
  lemma {:induction false} DistinctFromKeeps(kept: seq<string>, rules: seq<string>)
    ensures Keys(DistinctFrom(kept, rules)) == Keys(kept) + Keys(rules)
    ensures NoTwoAlike(kept) ==> NoTwoAlike(DistinctFrom(kept, rules))
    decreases |rules|
  {
    if rules != [] {
      KeepKeeps(kept, rules[0]);
      DistinctFromKeeps(Keep(kept, rules[0]), rules[1..]);
    }
  }

  lemma DistinctKeeps(rules: seq<string>)
    ensures Keys(Distinct(rules)) == Keys(rules) && NoTwoAlike(Distinct(rules))
  {
    DistinctFromKeeps([], rules);
  }

  // Each kept rule is one that was given, in its own spelling.
  lemma {:induction false} DistinctFromGiven(kept: seq<string>, rules: seq<string>, rule: string)
    requires rule in DistinctFrom(kept, rules)
    ensures rule in kept || rule in rules
    decreases |rules|
  {
    if rules != [] {
      DistinctFromGiven(Keep(kept, rules[0]), rules[1..], rule);
    }
  }

  predicate Repeats(rules: seq<string>, rule: string) {
    exists earlier | earlier in rules :: SameButForCase(earlier, rule)
  }

  lemma {:induction false} DistinctFromOneMore(kept: seq<string>, rules: seq<string>, rule: string)
    ensures DistinctFrom(kept, rules + [rule]) == Keep(DistinctFrom(kept, rules), rule)
    decreases |rules|
  {
    if rules == [] {
      assert ([] + [rule])[1..] == [];
    } else {
      DistinctFromOneMore(Keep(kept, rules[0]), rules[1..], rule);
      assert (rules + [rule])[1..] == rules[1..] + [rule];
    }
  }

  lemma RepeatsMeans(rules: seq<string>, rule: string)
    ensures Repeats(rules, rule) <==> Lower(rule) in Keys(rules)
  {
    KeyOf(rules, Lower(rule));
    if i :| 0 <= i < |rules| && Lower(rules[i]) == Lower(rule) {
      LowerExactly(rules[i], rule);
      assert rules[i] in rules;
    }
    if earlier :| earlier in rules && SameButForCase(earlier, rule) {
      LowerExactly(earlier, rule);
      var i :| 0 <= i < |rules| && rules[i] == earlier;
    }
  }

  // A rule is kept, after those before it, exactly when none before it differs
  // from it at most in case.
  lemma FirstOfEachIsKept(rules: seq<string>, rule: string)
    ensures Distinct([]) == []
    ensures Distinct(rules + [rule]) == Distinct(rules) + if Repeats(rules, rule) then [] else [rule]
  {
    DistinctFromOneMore([], rules, rule);
    DistinctKeeps(rules);
    RepeatsMeans(rules, rule);
    KeyOf(Distinct(rules), Lower(rule));
    assert Distinct(rules) + [] == Distinct(rules);
  }

  // Coverage depends on the keys alone.
  lemma CoveredByKeys(rules: seq<string>, tool: string)
    ensures Covered(rules, tool) <==> exists key | key in Keys(rules) :: InLanguage(key, Lower(tool), false)
  {
    if rule :| rule in rules && Covers(rule, tool) {
      KeyOf(rules, Lower(rule));
    }
    if key :| key in Keys(rules) && InLanguage(key, Lower(tool), false) {
      KeyOf(rules, key);
      var i :| 0 <= i < |rules| && Lower(rules[i]) == key;
      assert rules[i] in rules && Covers(rules[i], tool);
    }
  }

  // Dropping the repeats of a rule list never changes which tools it covers.
  lemma NormalizedCoverage(rules: seq<string>, tool: string)
    ensures Covered(Distinct(TrimAll(rules)), tool) <==> exists rule | rule in rules :: Covers(Trim(rule), tool)
  {
    var given := TrimAll(rules);
    DistinctKeeps(given);
    CoveredByKeys(Distinct(given), tool);
    CoveredByKeys(given, tool);
    if rule :| rule in rules && Covers(Trim(rule), tool) {
      var i :| 0 <= i < |rules| && rules[i] == rule;
      assert given[i] in given;
    }
    if rule :| rule in given && Covers(rule, tool) {
      var i :| 0 <= i < |rules| && given[i] == rule;
      assert rules[i] in rules;
    }
  }

  // A layer that adds rules can only make more tools need a person.
  lemma MoreRulesCoverMore(rules: seq<string>, more: seq<string>, tool: string)
    requires Covered(Distinct(TrimAll(rules)), tool)
    ensures Covered(Distinct(TrimAll(rules + more)), tool)
  {
    NormalizedCoverage(rules, tool);
    NormalizedCoverage(rules + more, tool);
    var rule :| rule in rules && Covers(Trim(rule), tool);
    assert rule in rules + more;
  }

  // ----- What trimming does to the names a rule covers -----

  function StarsDropped(p: string): string {
    if p == "" then ""
    else if p[0] == '*' then StarsDropped(p[1..])
    else [p[0]] + StarsDropped(p[1..])
  }

  lemma {:induction false} NoShorterMember(p: string, s: string)
    requires InLanguage(p, s, false)
    ensures |s| >= |StarsDropped(p)|
    decreases |p|
  {
    if p != "" {
      if p[0] == '*' {
        var k :| 0 <= k <= |s| && InLanguage(p[1..], s[k..], false);
        NoShorterMember(p[1..], s[k..]);
      } else {
        NoShorterMember(p[1..], s[1..]);
      }
    }
  }

  lemma {:induction false} StarsDroppedMatches(p: string)
    ensures InLanguage(p, StarsDropped(p), false)
  {
    if p != "" {
      StarsDroppedMatches(p[1..]);
      if p[0] == '*' {
        assert StarsDropped(p)[0..] == StarsDropped(p[1..]);
      } else {
        assert StarsDropped(p)[1..] == StarsDropped(p[1..]);
      }
    }
  }

  lemma {:induction false} StarsDroppedConcat(a: string, b: string)
    ensures StarsDropped(a + b) == StarsDropped(a) + StarsDropped(b)
  {
    if a == "" {
      assert a + b == b;
    } else {
      assert (a + b)[1..] == a[1..] + b;
      StarsDroppedConcat(a[1..], b);
    }
  }

  lemma {:induction false} SpacesAreNotStars(s: string)
    requires forall c | c in s :: IsSpace(c)
    ensures |StarsDropped(Lower(s))| == |s|
  {
    if s != "" {
      SpacesAreNotStars(s[1..]);
      assert Lower(s)[1..] == Lower(s[1..]);
      assert s[0] in s && LowerChar(s[0]) != '*';
    }
  }

  lemma {:induction false} LowerStarsDropped(s: string)
    ensures Lower(StarsDropped(Lower(s))) == StarsDropped(Lower(s))
  {
    if s != "" {
      LowerStarsDropped(s[1..]);
      assert Lower(s)[1..] == Lower(s[1..]);
    }
  }

  lemma LowerConcat(a: string, b: string)
    ensures Lower(a + b) == Lower(a) + Lower(b)
  {
  }

  lemma StarsDroppedOfTrimmed(before: string, kept: string, after: string)
    requires forall c | c in before :: IsSpace(c)
    requires forall c | c in after :: IsSpace(c)
    ensures |StarsDropped(Lower(before + kept + after))| == |before| + |StarsDropped(Lower(kept))| + |after|
  {
    LowerConcat(before + kept, after);
    LowerConcat(before, kept);
    StarsDroppedConcat(Lower(before) + Lower(kept), Lower(after));
    StarsDroppedConcat(Lower(before), Lower(kept));
    SpacesAreNotStars(before);
    SpacesAreNotStars(after);
  }

  // A rule with white space around it gains a name by being trimmed.
  lemma TrimmedRuleGains(rule: string) returns (name: string)
    requires Trim(rule) != rule
    ensures Covers(Trim(rule), name) && !Covers(rule, name)
  {
    var before, after := TrimSplits(rule);
    var kept := Trim(rule);
    name := StarsDropped(Lower(kept));
    StarsDroppedMatches(Lower(kept));
    LowerStarsDropped(kept);
    StarsDroppedOfTrimmed(before, kept, after);
    assert before != "" || after != "" by {
      assert "" + kept + "" == kept;
    }
    if Covers(rule, name) {
      NoShorterMember(Lower(rule), Lower(name));
    }
  }

  // Trimming is not neutral: exactly the rules without surrounding white space
  // cover the same names before and after.
  lemma TrimmingKeepsCoverage(rule: string)
    ensures (forall tool :: Covers(rule, tool) <==> Covers(Trim(rule), tool)) <==> Trim(rule) == rule
  {
    if Trim(rule) != rule {
      var name := TrimmedRuleGains(rule);
      assert Covers(rule, name) != Covers(Trim(rule), name);
    }
  }

  predicate NoSpaces(tool: string) {
    forall i | 0 <= i < |tool| :: !IsSpace(tool[i])
  }

  // A space in a rule asks for that very space in the name.
  lemma SpaceInRule(rule: string, tool: string, i: nat)
    requires i < |rule| && IsSpace(rule[i]) && Covers(rule, tool)
    ensures !NoSpaces(tool)
  {
    assert Lower(rule)[i] == rule[i];
    LiteralOccurs(Lower(rule), Lower(tool), rule[i]);
    var j :| 0 <= j < |tool| && Lower(tool)[j] == rule[i];
    assert tool[j] == rule[i];
  }

  // But trimming never loses a name without white space: a rule it changes
  // covered none.
  lemma TrimmingLosesNoName(rule: string, tool: string)
    requires NoSpaces(tool) && Covers(rule, tool)
    ensures Trim(rule) == rule
  {
    var before, after := TrimSplits(rule);
    if before != "" {
      assert before[0] in before && rule[0] == before[0];
      SpaceInRule(rule, tool, 0);
    } else if after != "" {
      var last := |rule| - 1;
      assert after[|after| - 1] in after && rule[last] == after[|after| - 1];
      SpaceInRule(rule, tool, last);
    }
  }

  // So normalising a rule list never takes such a tool away from a person.
  lemma NormalizingUncoversNothing(rules: seq<string>, tool: string)
    requires NoSpaces(tool) && Covered(rules, tool)
    ensures Covered(Distinct(TrimAll(rules)), tool)
  {
    var rule :| rule in rules && Covers(rule, tool);
    TrimmingLosesNoName(rule, tool);
    NormalizedCoverage(rules, tool);
  }

  // ----- What a session remembers -----

  class ApprovalMemory {
    var always: set<string>
    const required: seq<string>

    constructor (required: seq<string>)
      ensures this.required == required && always == {}
    {
      this.required := required;
      always := {};
    }

    /** The first rule that covers `tool`. */
    method RequiredRule(tool: string) returns (r: Option<string>)
      ensures r.None? <==> !Covered(required, tool)
      ensures r.Some? ==> exists i | 0 <= i < |required| ::
                  r.value == required[i] && Covers(required[i], tool) && !Covered(required[..i], tool)
    {
      var i := 0;
      while i < |required|
        invariant 0 <= i <= |required|
        invariant !Covered(required[..i], tool)
      {
        LowerLanguage(required[i], tool);
        var hit := GlobMatches(required[i], tool);
        if hit {
          assert required[i] in required;
          return Some(required[i]);
        }
        assert required[..i + 1] == required[..i] + [required[i]];
        i := i + 1;
      }
      assert required[..i] == required;
      r := None;
    }

    predicate IsAlwaysAllowed(tool: string)
      reads this
    {
      tool in always
    }

    method AllowAlways(tool: string)
      modifies this
      ensures always == old(always) + {tool}
    {
      always := always + {tool};
    }
  }
}
