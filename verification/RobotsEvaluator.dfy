/**
  The verdict of a robots.txt file: which groups apply to a crawler and which of their rules decides about a path.
  `Allows` says it without any order on groups or rules, as section 2.2.2 of RFC 9309 does. `Applies` is the code's own
  reading of section 2.2.1: a group is for the crawler if the crawler's name contains one of its tokens, and only the
  groups with the longest such tokens count. `ReadsAsRfc` says when that is the same.
*/
module RobotsEvaluator {
  import opened Common
  import opened RobotsRules
  import opened Text
  import PercentEncoding
  import RobotsGlob

  datatype Verdict = Allowed | Disallowed

  datatype Label = OwnName | Wildcard | NoGroup

  // ----- declarative meaning

  predicate Contains(text: string, part: string) {
    exists k :: 0 <= k <= |text| - |part| && part <= text[k..]
  }

  predicate AgentMatches(declared: string, uaToken: string) {
    declared != "" && declared != "*" && Contains(Lower(uaToken), Lower(declared))
  }

  /** The group names the crawler with a token of this length. */
  predicate NamesAt(group: Group, uaToken: string, length: nat) {
    exists a :: a in group.userAgents && AgentMatches(a, uaToken) && |a| == length
  }

  ghost predicate SomeNames(groups: seq<Group>, uaToken: string, length: nat) {
    exists g :: g in groups && NamesAt(g, uaToken, length)
  }

  ghost predicate IsMostSpecific(groups: seq<Group>, uaToken: string, length: nat) {
    && SomeNames(groups, uaToken, length)
    && (forall g, n: nat :: g in groups && NamesAt(g, uaToken, n) ==> n <= length)
  }

  /** Groups naming the crawler by a token of maximal length apply; if no group names it, the '*' groups do. */
  ghost predicate Applies(groups: seq<Group>, uaToken: string, group: Group) {
    && group in groups
    && ((exists n: nat :: IsMostSpecific(groups, uaToken, n) && NamesAt(group, uaToken, n))
     || (NoneNames(groups, uaToken) && "*" in group.userAgents))
  }

  ghost predicate NoneNames(groups: seq<Group>, uaToken: string) {
    forall g, n: nat :: g in groups ==> !NamesAt(g, uaToken, n)
  }

  ghost predicate Governs(groups: seq<Group>, uaToken: string, path: string, rule: Rule) {
    (exists g :: Applies(groups, uaToken, g) && rule in g.rules) && RobotsGlob.PatternMatches(rule.pattern, path)
  }

  ghost predicate IsLongest(groups: seq<Group>, uaToken: string, path: string, rule: Rule) {
    && Governs(groups, uaToken, path, rule)
    && (forall r :: Governs(groups, uaToken, path, r) ==> |r.pattern| <= |rule.pattern|)
  }

  /** A governing rule of maximal length decides, and an allow rule wins a tie. */
  ghost predicate Allows(groups: seq<Group>, uaToken: string, path: string) {
    || (forall r :: !Governs(groups, uaToken, path, r))
    || (exists r :: IsLongest(groups, uaToken, path, r) && r.directive == Allow)
  }

  // ----- the choice of a rule

  predicate Beats(a: Rule, b: Rule) {
    |a.pattern| > |b.pattern| || (|a.pattern| == |b.pattern| && a.directive == Allow && b.directive == Disallow)
  }

  /** Rule `k` matches, no matching rule beats it, and it beats every matching rule before it. */
  ghost predicate IsFirstBest(rules: seq<Rule>, path: string, k: int) {
    && 0 <= k < |rules| && RobotsGlob.PatternMatches(rules[k].pattern, path)
    && (forall j :: 0 <= j < |rules| && RobotsGlob.PatternMatches(rules[j].pattern, path) ==>
          !Beats(rules[j], rules[k]) && (j < k ==> Beats(rules[k], rules[j])))
  }

  lemma FirstBestAlone(rules: seq<Rule>, path: string, i: nat)
    requires i < |rules| && RobotsGlob.PatternMatches(rules[i].pattern, path)
    requires forall j :: 0 <= j < i ==> !RobotsGlob.PatternMatches(rules[j].pattern, path)
    ensures IsFirstBest(rules[..i + 1], path, i)
  {
    hide RobotsGlob.PatternMatches;
  }

  lemma FirstBestReplaced(rules: seq<Rule>, path: string, k: int, i: nat)
    requires i < |rules| && IsFirstBest(rules[..i], path, k)
    requires RobotsGlob.PatternMatches(rules[i].pattern, path) && Beats(rules[i], rules[k])
    ensures IsFirstBest(rules[..i + 1], path, i)
  {
    hide RobotsGlob.PatternMatches;
    assert forall j :: 0 <= j < i ==> rules[..i][j] == rules[j];
  }

  lemma FirstBestKept(rules: seq<Rule>, path: string, k: int, i: nat)
    requires i < |rules| && IsFirstBest(rules[..i], path, k)
    requires RobotsGlob.PatternMatches(rules[i].pattern, path) ==> !Beats(rules[i], rules[k])
    ensures IsFirstBest(rules[..i + 1], path, k)
  {
    hide RobotsGlob.PatternMatches;
    assert forall j :: 0 <= j < i ==> rules[..i][j] == rules[j];
  }

  method BestRuleForPath(rules: seq<Rule>, path: string) returns (best: Option<Rule>)
    ensures best == None ==> forall r :: r in rules ==> !RobotsGlob.PatternMatches(r.pattern, path)
    ensures best.Some? ==> exists k :: IsFirstBest(rules, path, k) && rules[k] == best.value
  {
    best := None;
    ghost var at: int := 0;
    for i := 0 to |rules|
      invariant best == None ==> forall j :: 0 <= j < i ==> !RobotsGlob.PatternMatches(rules[j].pattern, path)
      invariant best.Some? ==> 0 <= at < i && rules[at] == best.value && IsFirstBest(rules[..i], path, at)
    {
      hide RobotsGlob.PatternMatches, IsFirstBest;
      var rule := rules[i];
      var matched := RobotsGlob.MatchesPattern(rule.pattern, path);
      if matched {
        if best == None {
          FirstBestAlone(rules, path, i);
          best, at := Some(rule), i;
        } else if |rule.pattern| > |best.value.pattern| {
          FirstBestReplaced(rules, path, at, i);
          best, at := Some(rule), i;
        } else if |rule.pattern| == |best.value.pattern| && rule.directive == Allow
          && best.value.directive == Disallow {
          FirstBestReplaced(rules, path, at, i);
          best, at := Some(rule), i;
        } else {
          FirstBestKept(rules, path, at, i);
        }
      } else if best.Some? {
        FirstBestKept(rules, path, at, i);
      }
    }
    assert rules[..|rules|] == rules;
  }

  // ----- the choice of the groups

  ghost predicate Ascending(indices: seq<nat>) {
    forall a, b :: 0 <= a < b < |indices| ==> indices[a] < indices[b]
  }

  /** As `NamesAt`, counting the first `limit` agents only. */
  ghost predicate NamesWithin(group: Group, limit: int, uaToken: string, length: nat) {
    exists a :: 0 <= a < limit && a < |group.userAgents|
             && AgentMatches(group.userAgents[a], uaToken) && |group.userAgents[a]| == length
  }

  /** What is known once the agents before agent `j` of group `i` have been compared. */
  ghost predicate Compared(groups: seq<Group>, uaToken: string, i: nat, j: nat, bestLen: nat, matched: seq<nat>) {
    && i <= |groups|
    && (bestLen > 0 <==> matched != [])
    && Ascending(matched)
    && (forall m :: 0 <= m < |matched| ==> matched[m] < |groups| && matched[m] <= i)
    && (forall x, n: nat :: 0 <= x < i && NamesWithin(groups[x], |groups[x].userAgents|, uaToken, n) ==> n <= bestLen)
    && (i < |groups| ==> forall n: nat :: NamesWithin(groups[i], j, uaToken, n) ==> n <= bestLen)
    && (forall x :: 0 <= x < i ==>
          (x in matched <==> NamesWithin(groups[x], |groups[x].userAgents|, uaToken, bestLen)))
    && (i < |groups| ==> (i in matched <==> NamesWithin(groups[i], j, uaToken, bestLen)))
  }

  lemma OneMoreAgent(group: Group, j: nat, uaToken: string, length: nat)
    requires j < |group.userAgents|
    ensures NamesWithin(group, j + 1, uaToken, length) <==>
      (NamesWithin(group, j, uaToken, length)
       || (AgentMatches(group.userAgents[j], uaToken) && |group.userAgents[j]| == length))
  {
  }

  lemma AllAgents(group: Group, uaToken: string, length: nat)
    ensures NamesWithin(group, |group.userAgents|, uaToken, length) <==> NamesAt(group, uaToken, length)
  {
  }

  method CompareAgent(groups: seq<Group>, uaToken: string, i: nat, j: nat, bestLen: nat, matched: seq<nat>)
    returns (newLen: nat, newMatched: seq<nat>)
    requires i < |groups| && j < |groups[i].userAgents|
    requires Compared(groups, uaToken, i, j, bestLen, matched)
    ensures Compared(groups, uaToken, i, j + 1, newLen, newMatched)
  {
    newLen, newMatched := bestLen, matched;
    var ua := groups[i].userAgents[j];
    if AgentMatches(ua, uaToken) {
      if |ua| > bestLen {
        newLen, newMatched := |ua|, [i];
      } else if |ua| == bestLen {
        if i !in matched {
          newMatched := matched + [i];
        }
      }
    }
    ghost var compared := j + 1;
    forall n: nat | NamesWithin(groups[i], compared, uaToken, n) ensures n <= newLen {
      OneMoreAgent(groups[i], j, uaToken, n);
    }
    OneMoreAgent(groups[i], j, uaToken, newLen);
  }

  function WildcardGroups(groups: seq<Group>, from: nat): (chosen: seq<nat>)
    requires from <= |groups|
    ensures Ascending(chosen)
    ensures forall m :: 0 <= m < |chosen| ==> from <= chosen[m] < |groups|
    ensures forall x :: x in chosen <==> from <= x < |groups| && "*" in groups[x].userAgents
    decreases |groups| - from
  {
    if from == |groups| then []
    else if "*" in groups[from].userAgents then [from] + WildcardGroups(groups, from + 1)
    else WildcardGroups(groups, from + 1)
  }

  method SelectApplicableGroups(groups: seq<Group>, uaToken: string) returns (chosen: seq<nat>, userAgentGroup: Label)
    ensures Ascending(chosen) && forall m :: 0 <= m < |chosen| ==> chosen[m] < |groups|
    ensures forall x :: x in chosen <==> 0 <= x < |groups| && Applies(groups, uaToken, groups[x])
    ensures userAgentGroup == OwnName <==> !NoneNames(groups, uaToken)
    ensures userAgentGroup == NoGroup <==> chosen == []
  {
    var bestLen: nat, matched: seq<nat> := 0, [];
    for i := 0 to |groups|
      invariant Compared(groups, uaToken, i, 0, bestLen, matched)
    {
      for j := 0 to |groups[i].userAgents|
        invariant Compared(groups, uaToken, i, j, bestLen, matched)
      {
        bestLen, matched := CompareAgent(groups, uaToken, i, j, bestLen, matched);
      }
    }
    ComparedAll(groups, uaToken, bestLen, matched);
    if |matched| > 0 {
      return matched, OwnName;
    }
    var wildcardGroups := WildcardGroups(groups, 0);
    if |wildcardGroups| > 0 {
      return wildcardGroups, Wildcard;
    }
    return [], NoGroup;
  }

  lemma ComparedAll(groups: seq<Group>, uaToken: string, bestLen: nat, matched: seq<nat>)
    requires Compared(groups, uaToken, |groups|, 0, bestLen, matched)
    ensures matched == [] <==> NoneNames(groups, uaToken)
    ensures matched != [] ==>
      forall x :: x in matched <==> 0 <= x < |groups| && Applies(groups, uaToken, groups[x])
    ensures matched == [] ==>
      forall x :: 0 <= x < |groups| ==> (Applies(groups, uaToken, groups[x]) <==> "*" in groups[x].userAgents)
  {
    forall x, n: nat | 0 <= x < |groups|
      ensures NamesWithin(groups[x], |groups[x].userAgents|, uaToken, n) <==> NamesAt(groups[x], uaToken, n)
    {
      AllAgents(groups[x], uaToken, n);
    }
    if matched != [] {
      assert matched[0] in matched;
      assert groups[matched[0]] in groups && NamesAt(groups[matched[0]], uaToken, bestLen);
      assert IsMostSpecific(groups, uaToken, bestLen);
    }
  }

  // ----- the verdict

  function AllRules(groups: seq<Group>, chosen: seq<nat>): (rules: seq<Rule>)
    requires forall m :: 0 <= m < |chosen| ==> chosen[m] < |groups|
    ensures forall r :: r in rules <==> exists m :: 0 <= m < |chosen| && r in groups[chosen[m]].rules
  {
    if chosen == [] then []
    else
      groups[chosen[0]].rules + AllRules(groups, chosen[1..])
  }

  function PathAndQuery(pathname: string, search: string): string {
    PercentEncoding.Normalized((if pathname == "" then "/" else pathname) + search)
  }

  /**
    What is judged is the path, or "/" if it is empty, with the query behind it. So for a URL in normal form a pattern
    without wild cards matches exactly if path and query together begin with it.
  */
  lemma QueryIsJudged(pathname: string, search: string, pattern: string)
    requires PercentEncoding.IsNormal((if pathname == "" then "/" else pathname) + search)
    requires '*' !in pattern && '$' !in pattern
    ensures RobotsGlob.PatternMatches(pattern, PathAndQuery(pathname, search))
       <==> pattern <= (if pathname == "" then "/" else pathname) + search
  {
    hide PercentEncoding.IsNormal, PercentEncoding.Normalized, RobotsGlob.PatternMatches;
    var path := (if pathname == "" then "/" else pathname) + search;
    PercentEncoding.FixedPoints(path);
    assert PathAndQuery(pathname, search) == path;
    RobotsGlob.PlainPattern(pattern, path);
  }

  method EvaluateRobots(groups: seq<Group>, pathname: string, search: string, uaToken: string)
    returns (verdict: Verdict, userAgentGroup: Label, matchedRule: Option<Rule>)
    ensures verdict == Allowed <==> Allows(groups, uaToken, PathAndQuery(pathname, search))
    ensures matchedRule == None <==> forall r :: !Governs(groups, uaToken, PathAndQuery(pathname, search), r)
    ensures matchedRule.Some? ==> IsLongest(groups, uaToken, PathAndQuery(pathname, search), matchedRule.value)
    ensures matchedRule.Some? ==> (verdict == Allowed <==> matchedRule.value.directive == Allow)
    ensures userAgentGroup == OwnName <==> !NoneNames(groups, uaToken)
    ensures userAgentGroup == NoGroup <==> forall g :: !Applies(groups, uaToken, g)
  {
    var chosen;
    chosen, userAgentGroup := SelectApplicableGroups(groups, uaToken);
    if |chosen| == 0 {
      return Allowed, userAgentGroup, None;
    }
    assert Applies(groups, uaToken, groups[chosen[0]]);
    var path := PercentEncoding.NormalizePercentEncoding((if pathname == "" then "/" else pathname) + search);
    var allRules := AllRules(groups, chosen);
    RulesOfChosen(groups, uaToken, chosen, allRules, path);
    var best := BestRuleForPath(allRules, path);
    if best == None {
      return Allowed, userAgentGroup, None;
    }
    BestDecides(groups, uaToken, path, allRules, best.value);
    return if best.value.directive == Allow then Allowed else Disallowed, userAgentGroup, best;
  }

  lemma RulesOfChosen(groups: seq<Group>, uaToken: string, chosen: seq<nat>, allRules: seq<Rule>, path: string)
    requires forall m :: 0 <= m < |chosen| ==> chosen[m] < |groups|
    requires forall x :: x in chosen <==> 0 <= x < |groups| && Applies(groups, uaToken, groups[x])
    requires allRules == AllRules(groups, chosen)
    ensures forall r ::
      Governs(groups, uaToken, path, r) <==> r in allRules && RobotsGlob.PatternMatches(r.pattern, path)
  {
    forall r ensures r in allRules <==> exists g :: Applies(groups, uaToken, g) && r in g.rules {
      if g :| Applies(groups, uaToken, g) && r in g.rules {
        var x :| 0 <= x < |groups| && groups[x] == g;
        assert x in chosen;
        var m :| 0 <= m < |chosen| && chosen[m] == x;
      }
      if m :| 0 <= m < |chosen| && r in groups[chosen[m]].rules {
        assert chosen[m] in chosen;
      }
    }
  }

  lemma BestDecides(groups: seq<Group>, uaToken: string, path: string, allRules: seq<Rule>, best: Rule)
    requires forall r ::
      Governs(groups, uaToken, path, r) <==> r in allRules && RobotsGlob.PatternMatches(r.pattern, path)
    requires exists k :: IsFirstBest(allRules, path, k) && allRules[k] == best
    ensures IsLongest(groups, uaToken, path, best)
    ensures Allows(groups, uaToken, path) <==> best.directive == Allow
  {
    var k :| IsFirstBest(allRules, path, k) && allRules[k] == best;
    forall r | Governs(groups, uaToken, path, r) ensures !Beats(r, best) {
      var j :| 0 <= j < |allRules| && allRules[j] == r;
    }
    assert Governs(groups, uaToken, path, best);
  }

  // ----- order does not matter

  ghost predicate SameContents(g: Group, h: Group) {
    && (forall a :: a in g.userAgents <==> a in h.userAgents)
    && (forall r :: r in g.rules <==> r in h.rules)
  }

  /** Every group of the one list has a counterpart in the other with the same agents and rules in some order. */
  ghost predicate Covers(gs: seq<Group>, hs: seq<Group>) {
    forall g :: g in gs ==> exists h :: h in hs && SameContents(g, h)
  }

  lemma SameNames(g: Group, h: Group, uaToken: string, n: nat)
    requires SameContents(g, h)
    ensures NamesAt(g, uaToken, n) <==> NamesAt(h, uaToken, n)
  {
  }

  lemma CoveredNames(gs: seq<Group>, hs: seq<Group>, uaToken: string, n: nat)
    requires Covers(gs, hs) && (exists g :: g in gs && NamesAt(g, uaToken, n))
    ensures exists h :: h in hs && NamesAt(h, uaToken, n)
  {
    var g :| g in gs && NamesAt(g, uaToken, n);
    var h :| h in hs && SameContents(g, h);
    SameNames(g, h, uaToken, n);
  }

  lemma CoveredMostSpecific(gs: seq<Group>, hs: seq<Group>, uaToken: string, n: nat)
    requires Covers(gs, hs) && Covers(hs, gs) && IsMostSpecific(gs, uaToken, n)
    ensures IsMostSpecific(hs, uaToken, n)
  {
    hide NamesAt, Covers;
    CoveredNames(gs, hs, uaToken, n);
    forall h, m: nat | h in hs && NamesAt(h, uaToken, m) ensures m <= n {
      CoveredNames(hs, gs, uaToken, m);
    }
  }

  lemma CoveredNoneNames(gs: seq<Group>, hs: seq<Group>, uaToken: string)
    requires Covers(hs, gs) && NoneNames(gs, uaToken)
    ensures NoneNames(hs, uaToken)
  {
    hide NamesAt, Covers;
    forall h, m: nat | h in hs ensures !NamesAt(h, uaToken, m) {
      if NamesAt(h, uaToken, m) {
        CoveredNames(hs, gs, uaToken, m);
      }
    }
  }

  lemma CoveredApplies(gs: seq<Group>, hs: seq<Group>, uaToken: string, g: Group) returns (h: Group)
    requires Covers(gs, hs) && Covers(hs, gs) && Applies(gs, uaToken, g)
    ensures SameContents(g, h) && Applies(hs, uaToken, h)
  {
    hide NamesAt, IsMostSpecific, NoneNames;
    h :| h in hs && SameContents(g, h);
    if n: nat :| IsMostSpecific(gs, uaToken, n) && NamesAt(g, uaToken, n) {
      SameNames(g, h, uaToken, n);
      CoveredMostSpecific(gs, hs, uaToken, n);
    } else {
      CoveredNoneNames(gs, hs, uaToken);
    }
  }

  lemma CoveredGoverns(gs: seq<Group>, hs: seq<Group>, uaToken: string, path: string, r: Rule)
    requires Covers(gs, hs) && Covers(hs, gs) && Governs(gs, uaToken, path, r)
    ensures Governs(hs, uaToken, path, r)
  {
    hide Applies, Covers, RobotsGlob.PatternMatches;
    var g :| Applies(gs, uaToken, g) && r in g.rules;
    var h := CoveredApplies(gs, hs, uaToken, g);
  }

  /** Neither the order of groups, rules and agents nor repeating one changes what is allowed. */
  lemma OrderDoesNotMatter(gs: seq<Group>, hs: seq<Group>, uaToken: string, path: string)
    requires Covers(gs, hs) && Covers(hs, gs)
    ensures Allows(gs, uaToken, path) <==> Allows(hs, uaToken, path)
  {
    forall r ensures Governs(gs, uaToken, path, r) <==> Governs(hs, uaToken, path, r) {
      if Governs(gs, uaToken, path, r) { CoveredGoverns(gs, hs, uaToken, path, r); }
      if Governs(hs, uaToken, path, r) { CoveredGoverns(hs, gs, uaToken, path, r); }
    }
    SameGoverning(gs, hs, uaToken, path);
  }

  lemma SameGoverning(gs: seq<Group>, hs: seq<Group>, uaToken: string, path: string)
    requires forall r :: Governs(gs, uaToken, path, r) <==> Governs(hs, uaToken, path, r)
    ensures Allows(gs, uaToken, path) <==> Allows(hs, uaToken, path)
  {
    forall r ensures IsLongest(gs, uaToken, path, r) <==> IsLongest(hs, uaToken, path, r) {
    }
  }

  /** Two lists that are permutations of each other, the special case a file's author sees. */
  lemma PermutedGroups(gs: seq<Group>, hs: seq<Group>, uaToken: string, path: string)
    requires multiset(gs) == multiset(hs)
    ensures Allows(gs, uaToken, path) <==> Allows(hs, uaToken, path)
  {
    forall g ensures g in gs <==> g in hs {
      assert g in multiset(gs) <==> g in gs;
      assert g in multiset(hs) <==> g in hs;
    }
    forall g | g in gs ensures exists h :: h in hs && SameContents(g, h) {
      assert SameContents(g, g);
    }
    forall h | h in hs ensures exists g :: g in gs && SameContents(h, g) {
      assert SameContents(h, h);
    }
    OrderDoesNotMatter(gs, hs, uaToken, path);
  }

  lemma SameAgents(g: Group, h: Group, one: Group, uaToken: string)
    requires one.userAgents == g.userAgents && forall a :: a in g.userAgents <==> a in h.userAgents
    ensures forall n: nat :: NamesAt(g, uaToken, n) == NamesAt(h, uaToken, n) == NamesAt(one, uaToken, n)
  {
  }

  /** As section 2.2.1 of RFC 9309 asks: groups for the same agents act as one group with the rules of both. */
  lemma GroupsCombine(g: Group, h: Group, rest: seq<Group>, uaToken: string, path: string)
    requires forall a :: a in g.userAgents <==> a in h.userAgents
    ensures Allows([g, h] + rest, uaToken, path)
       <==> Allows([Group(g.userAgents, g.rules + h.rules)] + rest, uaToken, path)
  {
    var one := Group(g.userAgents, g.rules + h.rules);
    var apart, joined := [g, h] + rest, [one] + rest;
    hide NamesAt;
    SameAgents(g, h, one, uaToken);
    CombinedApplies(g, h, rest, uaToken);
    forall r ensures Governs(apart, uaToken, path, r) <==> Governs(joined, uaToken, path, r) {
      if k :| Applies(apart, uaToken, k) && r in k.rules {
        assert Applies(joined, uaToken, if k in rest then k else one);
      }
      if k :| Applies(joined, uaToken, k) && r in k.rules {
        assert k in rest || k == one;
        assert Applies(apart, uaToken, if k in rest then k else if r in g.rules then g else h);
      }
    }
    SameGoverning(apart, joined, uaToken, path);
  }

  lemma CombinedApplies(g: Group, h: Group, rest: seq<Group>, uaToken: string)
    requires forall a :: a in g.userAgents <==> a in h.userAgents
    ensures var one := Group(g.userAgents, g.rules + h.rules);
      var apart, joined := [g, h] + rest, [one] + rest;
      && (Applies(apart, uaToken, g) <==> Applies(joined, uaToken, one))
      && (Applies(apart, uaToken, h) <==> Applies(joined, uaToken, one))
      && forall k :: k in rest ==> (Applies(apart, uaToken, k) <==> Applies(joined, uaToken, k))
  {
    var one := Group(g.userAgents, g.rules + h.rules);
    var apart, joined := [g, h] + rest, [one] + rest;
    hide NamesAt;
    SameAgents(g, h, one, uaToken);
    forall k ensures k in apart <==> k == g || k == h || k in rest {
    }
    forall k ensures k in joined <==> k == one || k in rest {
    }
    forall n: nat ensures SomeNames(apart, uaToken, n) <==> SomeNames(joined, uaToken, n) {
      if k :| k in apart && NamesAt(k, uaToken, n) {
        assert (if k in rest then k else one) in joined;
      }
      if k :| k in joined && NamesAt(k, uaToken, n) {
        assert (if k in rest then k else g) in apart;
      }
    }
    forall n: nat ensures IsMostSpecific(apart, uaToken, n) <==> IsMostSpecific(joined, uaToken, n) {
    }
    assert NoneNames(apart, uaToken) <==> NoneNames(joined, uaToken);
  }

  // ----- the reading of section 2.2.1 of RFC 9309

  /** The group is for the crawler by its whole name, whatever the case of letters. */
  predicate IsNamed(group: Group, uaToken: string) {
    exists a :: a in group.userAgents && a != "" && a != "*" && Lower(a) == Lower(uaToken)
  }

  ghost predicate SomeNamed(groups: seq<Group>, uaToken: string) {
    exists g :: g in groups && IsNamed(g, uaToken)
  }

  /** All groups for the crawler's name apply; if there are none, the '*' groups do. */
  ghost predicate AppliesByRfc(groups: seq<Group>, uaToken: string, group: Group) {
    group in groups && (IsNamed(group, uaToken) || (!SomeNamed(groups, uaToken) && "*" in group.userAgents))
  }

  lemma MatchIsPart(a: string, uaToken: string)
    ensures AgentMatches(a, uaToken) ==> |a| <= |uaToken|
    ensures a != "" && a != "*" ==> (AgentMatches(a, uaToken) && |a| == |uaToken| <==> Lower(a) == Lower(uaToken))
  {
    var part, text := Lower(a), Lower(uaToken);
    hide Lower;
    if k :| 0 <= k <= |text| - |part| && part <= text[k..] {
      if |part| == |text| {
        assert text[0..] == text;
      }
    }
    if part == text {
      assert part <= text[0..];
    }
  }

  lemma NamedIsLongest(group: Group, uaToken: string)
    ensures IsNamed(group, uaToken) <==> NamesAt(group, uaToken, |uaToken|)
    ensures forall n: nat :: NamesAt(group, uaToken, n) ==> n <= |uaToken|
  {
    hide AgentMatches, Lower;
    forall a ensures AgentMatches(a, uaToken) ==> |a| <= |uaToken|
             ensures a != "" && a != "*" ==>
               (AgentMatches(a, uaToken) && |a| == |uaToken| <==> Lower(a) == Lower(uaToken))
    {
      MatchIsPart(a, uaToken);
    }
    StarNeverMatches(uaToken);
  }

  lemma StarNeverMatches(uaToken: string)
    ensures !AgentMatches("", uaToken) && !AgentMatches("*", uaToken)
  {
  }

  /**
    The same groups apply if one of them is for the crawler's whole name or if no token is part of its name. Otherwise
    the groups with the longest such part apply here, and by the standard the '*' groups do.
  */
  lemma ReadsAsRfc(groups: seq<Group>, uaToken: string, group: Group)
    requires group in groups
    ensures SomeNamed(groups, uaToken) || NoneNames(groups, uaToken) ==>
      (Applies(groups, uaToken, group) <==> AppliesByRfc(groups, uaToken, group))
    ensures !SomeNamed(groups, uaToken) && !NoneNames(groups, uaToken) ==>
      && (AppliesByRfc(groups, uaToken, group) <==> "*" in group.userAgents)
      && (Applies(groups, uaToken, group) <==>
            exists n: nat :: IsMostSpecific(groups, uaToken, n) && NamesAt(group, uaToken, n))
  {
    hide NamesAt, IsNamed;
    forall g ensures IsNamed(g, uaToken) <==> NamesAt(g, uaToken, |uaToken|) {
      NamedIsLongest(g, uaToken);
    }
    forall g, n: nat | g in groups && NamesAt(g, uaToken, n) ensures n <= |uaToken| {
      NamedIsLongest(g, uaToken);
    }
    if g :| g in groups && IsNamed(g, uaToken) {
      assert NamesAt(g, uaToken, |uaToken|) && SomeNames(groups, uaToken, |uaToken|);
      assert IsMostSpecific(groups, uaToken, |uaToken|);
    }
  }

  /** A group for "bot" applies to a crawler named "robot" and keeps it out; by the standard none does. */
  lemma PartOfNameApplies()
    ensures var group := Group(["bot"], [Rule(Directive.Disallow, "/")]);
      Applies([group], "robot", group) && !AppliesByRfc([group], "robot", group)
  {
    var group := Group(["bot"], [Rule(Directive.Disallow, "/")]);
    assert Lower("bot") == "bot" && Lower("robot") == "robot";
    assert "bot" <= "robot"[2..];
    assert NamesAt(group, "robot", 3);
    assert group in [group];
    assert IsMostSpecific([group], "robot", 3);
  }
}
