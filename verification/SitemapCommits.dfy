/**
  What a whole traversal guarantees: which visits commit a watermark, that the counters report what was left out, that
  the fetch budget holds, and that the tables keep their invariant while no watermark goes back.
*/
module SitemapCommits {
  import opened Common
  import opened Database
  import opened Feed
  import opened FeedFrames
  import opened FeedAnnouncements
  import opened SitemapTraversal

  /** What the first `n` visits left out, each counting only its own. */
  function SumCuts(visits: seq<Visit>, n: nat): nat
    requires n <= |visits|
  {
    if n == 0 then 0 else SumCuts(visits, n - 1) + visits[n - 1].cut
  }

  /** Only limits count as leaving something out: not a document that is missing, unmodified, broken or disallowed. */
  predicate EndOk(v: Visit) {
    && (v.end.OverBudget? || v.end.TooDeep? ==> v.cut == 1)
    && (!v.end.OverBudget? && !v.end.TooDeep? && !v.end.Expanded? ==> v.cut == 0)
  }

  ghost predicate NothingCut(visits: seq<Visit>, from: int, to: int) {
    forall j :: 0 <= from <= j < to <= |visits| ==> visits[j].cut == 0
  }

  /**
    Entries `first` to `k` are the visits inside visit `k`; it commits iff it was expanded and none of them was cut.
  */
  ghost predicate VisitOk(visits: seq<Visit>, k: int)
    requires 0 <= k < |visits|
  {
    && visits[k].first <= k
    && (forall j :: visits[k].first <= j <= k ==> visits[j].first >= visits[k].first)
    && EndOk(visits[k])
    && (visits[k].committed <==> visits[k].end.Expanded? && NothingCut(visits, visits[k].first, k + 1))
  }

  ghost predicate VisitsOk(visits: seq<Visit>, from: nat) {
    forall k :: from <= k < |visits| ==> VisitOk(visits, k) && visits[k].first >= from
  }

  /** A limit that was hit shows in its counter. */
  ghost predicate CutsCounted(a: Walk, b: Walk) {
    && a.counts.fetchBudgetTruncated <= b.counts.fetchBudgetTruncated
    && a.counts.depthTruncated <= b.counts.depthTruncated
    && forall k :: |a.visits| <= k < |b.visits| ==>
         && (b.visits[k].end.OverBudget? ==> a.counts.fetchBudgetTruncated < b.counts.fetchBudgetTruncated)
         && (b.visits[k].end.TooDeep? ==> a.counts.depthTruncated < b.counts.depthTruncated)
  }

  /** From `a` to `b`, with `own` left out by the caller itself and not yet recorded with a visit. */
  ghost predicate Step(p: Setting, a: Walk, b: Walk, own: nat) {
    && a.visits <= b.visits
    && VisitsOk(b.visits, |a.visits|)
    && TruncationTotal(b.counts) + SumCuts(b.visits, |a.visits|)
       == TruncationTotal(a.counts) + SumCuts(b.visits, |b.visits|) + own
    && CutsCounted(a, b)
    && a.counts.fetchesUsed <= b.counts.fetchesUsed <= Max(a.counts.fetchesUsed, p.maxFetches)
  }

  // ----- sums and prefixes

  lemma {:induction false} SumOfPrefix(a: seq<Visit>, b: seq<Visit>, n: nat)
    requires a <= b && n <= |a|
    ensures SumCuts(a, n) == SumCuts(b, n)
  {
    if n > 0 {
      SumOfPrefix(a, b, n - 1);
    }
  }

  lemma {:induction false} SumIsZero(visits: seq<Visit>, m: nat, n: nat)
    requires m <= n <= |visits|
    ensures SumCuts(visits, m) <= SumCuts(visits, n)
    ensures SumCuts(visits, m) == SumCuts(visits, n) <==> NothingCut(visits, m, n)
  {
    if m < n {
      SumIsZero(visits, m, n - 1);
      assert NothingCut(visits, m, n) <==> NothingCut(visits, m, n - 1) && visits[n - 1].cut == 0;
    }
  }

  lemma OkStays(b: seq<Visit>, c: seq<Visit>, k: int)
    requires b <= c && 0 <= k < |b| && VisitOk(b, k)
    ensures VisitOk(c, k)
  {
    assert c[k] == b[k];
    assert NothingCut(c, c[k].first, k + 1) <==> NothingCut(b, b[k].first, k + 1);
  }

  lemma VisitsCompose(a: seq<Visit>, b: seq<Visit>, c: seq<Visit>)
    requires a <= b <= c && VisitsOk(b, |a|) && VisitsOk(c, |b|)
    ensures VisitsOk(c, |a|)
  {
    hide VisitOk;
    forall k | |a| <= k < |c| ensures VisitOk(c, k) && c[k].first >= |a| {
      if k < |b| {
        assert VisitOk(b, k);
        OkStays(b, c, k);
        assert c[k] == b[k];
      } else {
        assert VisitOk(c, k);
      }
    }
  }

  lemma CutsCompose(a: Walk, b: Walk, c: Walk)
    requires a.visits <= b.visits <= c.visits && CutsCounted(a, b) && CutsCounted(b, c)
    ensures CutsCounted(a, c)
  {
    forall k | |a.visits| <= k < |c.visits| ensures
      && (c.visits[k].end.OverBudget? ==> a.counts.fetchBudgetTruncated < c.counts.fetchBudgetTruncated)
      && (c.visits[k].end.TooDeep? ==> a.counts.depthTruncated < c.counts.depthTruncated)
    {
      assert k < |b.visits| ==> c.visits[k] == b.visits[k];
    }
  }

  lemma Compose(p: Setting, a: Walk, b: Walk, c: Walk, x: nat, y: nat)
    requires Step(p, a, b, x) && Step(p, b, c, y)
    ensures Step(p, a, c, x + y)
  {
    hide VisitsOk, CutsCounted, TruncationTotal;
    VisitsCompose(a.visits, b.visits, c.visits);
    CutsCompose(a, b, c);
    SumOfPrefix(b.visits, c.visits, |a.visits|);
    SumOfPrefix(b.visits, c.visits, |b.visits|);
  }

  /** A state change before any visit is recorded. */
  lemma NoVisit(p: Setting, a: Walk, b: Walk, own: nat)
    requires b.visits == a.visits && TruncationTotal(b.counts) == TruncationTotal(a.counts) + own
    requires a.counts.fetchBudgetTruncated <= b.counts.fetchBudgetTruncated
    requires a.counts.depthTruncated <= b.counts.depthTruncated
    requires a.counts.fetchesUsed <= b.counts.fetchesUsed <= Max(a.counts.fetchesUsed, p.maxFetches)
    ensures Step(p, a, b, own)
  {
  }

  /** The end of a visit that began at `a`: it commits iff it was expanded and the counters are where they were. */
  predicate EndsWell(a: Walk, b: Walk, v: Visit) {
    && v.first == |a.visits| && EndOk(v)
    && (v.end.OverBudget? ==> a.counts.fetchBudgetTruncated < b.counts.fetchBudgetTruncated)
    && (v.end.TooDeep? ==> a.counts.depthTruncated < b.counts.depthTruncated)
    && (v.committed <==> v.end.Expanded? && TruncationTotal(b.counts) <= TruncationTotal(a.counts))
  }

  lemma Recorded(p: Setting, a: Walk, b: Walk, c: Walk, v: Visit)
    requires Step(p, a, b, v.cut) && EndsWell(a, b, v)
    requires c.visits == b.visits + [v] && c.counts == b.counts
    ensures Step(p, a, c, 0)
  {
    hide CutsCounted, TruncationTotal, VisitsOk, EndOk;
    SumOfPrefix(b.visits, c.visits, |a.visits|);
    SumOfPrefix(b.visits, c.visits, |b.visits|);
    SumIsZero(b.visits, |a.visits|, |b.visits|);
    LastVisit(a.visits, b.visits, v);
    LastCut(a, b, c, v);
  }

  lemma LastCut(a: Walk, b: Walk, c: Walk, v: Visit)
    requires a.visits <= b.visits && CutsCounted(a, b) && EndsWell(a, b, v)
    requires c.visits == b.visits + [v] && c.counts == b.counts
    ensures CutsCounted(a, c)
  {
    forall k | |a.visits| <= k < |c.visits| ensures
      && (c.visits[k].end.OverBudget? ==> a.counts.fetchBudgetTruncated < c.counts.fetchBudgetTruncated)
      && (c.visits[k].end.TooDeep? ==> a.counts.depthTruncated < c.counts.depthTruncated)
    {
      assert k < |b.visits| ==> c.visits[k] == b.visits[k];
    }
  }

  lemma LastVisit(a: seq<Visit>, b: seq<Visit>, v: Visit)
    requires a <= b && VisitsOk(b, |a|) && v.first == |a| && EndOk(v)
    requires v.committed <==> v.end.Expanded? && v.cut == 0 && NothingCut(b, |a|, |b|)
    ensures VisitsOk(b + [v], |a|)
  {
    hide EndOk;
    var c := b + [v];
    var n := |b|;
    forall k | |a| <= k < |c| ensures VisitOk(c, k) && c[k].first >= |a| {
      if k < n {
        assert VisitOk(b, k);
        OkStays(b, c, k);
      } else {
        forall j | |a| <= j <= k ensures c[j].first >= |a| {
          if j < k { assert c[j] == b[j] && VisitOk(b, j); }
        }
        assert NothingCut(c, |a|, k + 1) <==> NothingCut(b, |a|, n) && v.cut == 0 by {
          assert c[n] == v && forall j :: 0 <= j < n ==> c[j] == b[j];
        }
      }
    }
  }

  // ----- the traversal, call by call

  lemma UrlSetSteps(p: Setting, a: Walk, s: Walk, items: seq<Item>, v: Visit)
    requires Step(p, a, s, 0) && TruncationTotal(s.counts) == TruncationTotal(a.counts)
    requires v.first == |a.visits| && v.end.Expanded? && v.cut == 0 && !v.committed
    ensures Step(p, a, AfterUrlSet(p, s, items, v), 0)
  {
    hide Step, Processed, FilteredItems, MissingLastmod;
    var filtered := FilteredItems(items, p.cutoff);
    var chosen := ToProcess(filtered, MAX_FEED_ITEMS_PER_CHECK);
    var counted := s.counts.(missingLastmodSkipped := s.counts.missingLastmodSkipped + MissingLastmod(items));
    var after := s.(db := if filtered == [] then s.db else Processed(p.check, s.db, chosen), counts := counted);
    var cut := |filtered| - |chosen|;
    if cut > 0 {
      var cutOff := after.(counts := counted.(feedItemsTruncated := counted.feedItemsTruncated + cut));
      NoVisit(p, s, cutOff, cut);
      Compose(p, a, s, cutOff, 0, cut);
      Recorded(p, a, cutOff, Left(cutOff, v.(cut := cut)), v.(cut := cut));
    } else {
      NoVisit(p, s, after, 0);
      Compose(p, a, s, after, 0, 0);
      Recorded(p, a, after, Committed(after, v), v.(committed := true));
    }
  }

  lemma LeftAtOnce(p: Setting, a: Walk, b: Walk, v: Visit)
    requires b.visits == a.visits && TruncationTotal(b.counts) == TruncationTotal(a.counts) + v.cut
    requires a.counts.fetchBudgetTruncated <= b.counts.fetchBudgetTruncated
    requires a.counts.depthTruncated <= b.counts.depthTruncated
    requires b.counts.fetchesUsed == a.counts.fetchesUsed && EndsWell(a, b, v)
    ensures Step(p, a, Left(b, v), 0)
  {
    hide Step;
    NoVisit(p, a, b, v.cut);
    Recorded(p, a, b, Left(b, v), v);
  }

  lemma ChildSteps(p: Setting, s: Walk, e: ChildEntry, depth: nat)
    ensures Step(p, s, Child(p, s, e, depth), 0)
    decreases Rank(p, depth), 0, 1
  {
    hide Step, Index, AfterUrlSet, Surplus, IsGated, AfterUpsert;
    var v := Visit(e.loc, e.lastmod, depth, e.loc in s.db.targets, OutOfOrigin, 0, false, |s.visits|);
    var known := s.(db := AfterUpsert(s.db, e.loc, if v.existed then None else Some(Some(e.lastmod))));
    if !p.isInOrigin(e.loc) {
      LeftAtOnce(p, s, s.(counts := s.counts.(originBlocked := s.counts.originBlocked + 1)), v);
    } else if p.check.isBaseline {
      LeftAtOnce(p, s, known, v.(end := BaselineOnly));
    } else if IsGated(s.db, e.loc, e.lastmod) {
      LeftAtOnce(p, s, known, v.(end := Gated));
    } else if !p.isFetchAllowed(e.loc) {
      LeftAtOnce(p, s, known, v.(end := Disallowed));
    } else if s.counts.fetchesUsed >= p.maxFetches {
      LeftAtOnce(p, s, known.(counts := s.counts.(fetchBudgetTruncated := s.counts.fetchBudgetTruncated + 1)),
                 v.(end := OverBudget, cut := 1));
    } else {
      var fetched := known.(counts := s.counts.(fetchesUsed := s.counts.fetchesUsed + 1));
      NoVisit(p, s, fetched, 0);
      FetchedSteps(p, s, fetched, v, e, depth);
    }
  }

  /** What a visit that began at `a` comes to once its document was asked for. */
  function AfterFetch(p: Setting, fetched: Walk, v: Visit, e: ChildEntry, depth: nat): Walk {
    match p.fetch(fetched.counts.fetchesUsed, e.loc)
    case UrlSet(items) => AfterUrlSet(p, fetched, items, v.(end := Expanded))
    case SitemapIndex(items) =>
      if depth + 1 < p.maxDepth then
        var below := Index(p, fetched, items, depth + 1);
        var w := v.(end := Expanded, cut := Surplus(p, items));
        if TruncationTotal(below.counts) > TruncationTotal(fetched.counts) then Left(below, w) else Committed(below, w)
      else
        Left(fetched.(counts := fetched.counts.(depthTruncated := fetched.counts.depthTruncated + 1)),
             v.(end := TooDeep, cut := 1))
    case _ => Left(fetched, v.(end := NoDocument))
  }

  lemma FetchedSteps(p: Setting, a: Walk, fetched: Walk, v: Visit, e: ChildEntry, depth: nat)
    requires Step(p, a, fetched, 0) && TruncationTotal(fetched.counts) == TruncationTotal(a.counts)
    requires fetched.counts.depthTruncated == a.counts.depthTruncated
    requires v == Visit(e.loc, e.lastmod, depth, v.existed, OutOfOrigin, 0, false, |a.visits|)
    ensures Step(p, a, AfterFetch(p, fetched, v, e, depth), 0)
    decreases Rank(p, depth), 0, 0
  {
    hide Step, Index, AfterUrlSet, Surplus;
    match p.fetch(fetched.counts.fetchesUsed, e.loc)
    case UrlSet(items) =>
      UrlSetSteps(p, a, fetched, items, v.(end := Expanded));
    case SitemapIndex(items) =>
      if depth + 1 < p.maxDepth {
        var below := Index(p, fetched, items, depth + 1);
        var w := v.(end := Expanded, cut := Surplus(p, items));
        IndexSteps(p, fetched, items, depth + 1);
        Compose(p, a, fetched, below, 0, Surplus(p, items));
        if TruncationTotal(below.counts) > TruncationTotal(fetched.counts) {
          Recorded(p, a, below, Left(below, w), w);
        } else {
          Recorded(p, a, below, Committed(below, w), w.(committed := true));
        }
      } else {
        var deeper := fetched.(counts := fetched.counts.(depthTruncated := fetched.counts.depthTruncated + 1));
        NoVisit(p, fetched, deeper, 1);
        Compose(p, a, fetched, deeper, 0, 1);
        Recorded(p, a, deeper, Left(deeper, v.(end := TooDeep, cut := 1)), v.(end := TooDeep, cut := 1));
      }
    case _ =>
      Recorded(p, a, fetched, Left(fetched, v.(end := NoDocument)), v.(end := NoDocument));
  }

  lemma ChildrenStep(p: Setting, s: Walk, entries: seq<ChildEntry>, depth: nat)
    ensures Step(p, s, Children(p, s, entries, depth), 0)
    decreases Rank(p, depth), 1, |entries|
  {
    hide Step, Child;
    if entries == [] {
      NoVisit(p, s, s, 0);
    } else {
      var first := Child(p, s, entries[0], depth);
      ChildSteps(p, s, entries[0], depth);
      ChildrenStep(p, first, entries[1..], depth);
      Compose(p, s, first, Children(p, first, entries[1..], depth), 0, 0);
    }
  }

  lemma IndexSteps(p: Setting, s: Walk, items: seq<Item>, depth: nat)
    ensures Step(p, s, Index(p, s, items, depth), Surplus(p, items))
    decreases Rank(p, depth), 2, 0
  {
    hide Step, Children, Selected, MissingLastmod, PatternExcluded;
    var counted := s.(counts := IndexCounts(p, s.counts, items));
    NoVisit(p, s, counted, Surplus(p, items));
    ChildrenStep(p, counted, Kept(p, items), depth);
    Compose(p, s, counted, Children(p, counted, Kept(p, items), depth), Surplus(p, items), 0);
  }

  // ----- a whole check

  function WholeCheck(p: Setting, db: Db, items: seq<Item>): Walk {
    Index(p, Walk(db, NO_COUNTS, []), items, 0)
  }

  /**
    A visit commits exactly if its document was fetched and expanded and no limit was hit by it or by any visit inside
    it. So a limit hit anywhere below leaves every enclosing visit uncommitted; a fetch that failed below does not.
  */
  lemma CommittedExactly(p: Setting, db: Db, items: seq<Item>, k: nat)
    requires k < |WholeCheck(p, db, items).visits|
    ensures var visits := WholeCheck(p, db, items).visits;
      && visits[k].first <= k
      && (visits[k].committed <==> visits[k].end.Expanded? && NothingCut(visits, visits[k].first, k + 1))
      && (forall j :: visits[k].first <= j <= k ==> visits[j].first >= visits[k].first)
  {
    hide Index, Surplus, CutsCounted, TruncationTotal;
    IndexSteps(p, Walk(db, NO_COUNTS, []), items, 0);
    assert VisitOk(WholeCheck(p, db, items).visits, k);
  }

  /** Of the visits that end early exactly those stopped by the fetch budget or by the depth leave something out. */
  lemma EarlyEndsCut(p: Setting, db: Db, items: seq<Item>, k: nat)
    requires k < |WholeCheck(p, db, items).visits| && !WholeCheck(p, db, items).visits[k].end.Expanded?
    ensures var v := WholeCheck(p, db, items).visits[k];
      !v.committed && (v.cut > 0 <==> v.end.OverBudget? || v.end.TooDeep?)
  {
    hide Index, Surplus, CutsCounted, TruncationTotal;
    IndexSteps(p, Walk(db, NO_COUNTS, []), items, 0);
    assert VisitOk(WholeCheck(p, db, items).visits, k);
  }

  /** What the counters report is what the visits left out, and the children the first index lost to the limit. */
  lemma NothingLeftOutSilently(p: Setting, db: Db, items: seq<Item>)
    ensures var w := WholeCheck(p, db, items);
      TruncationTotal(w.counts) == Surplus(p, items) + SumCuts(w.visits, |w.visits|)
  {
    hide Index, Surplus, CutsCounted, VisitsOk;
    IndexSteps(p, Walk(db, NO_COUNTS, []), items, 0);
  }

  lemma FetchesStayInBudget(p: Setting, db: Db, items: seq<Item>)
    ensures WholeCheck(p, db, items).counts.fetchesUsed <= Max(0, p.maxFetches)
    ensures p.maxFetches == MAX_TRAVERSAL_FETCHES_PER_CHECK ==> WholeCheck(p, db, items).counts.fetchesUsed <= 50
  {
    hide Index, Surplus, CutsCounted, VisitsOk, TruncationTotal;
    IndexSteps(p, Walk(db, NO_COUNTS, []), items, 0);
  }

  // ----- how much a traversal can do at most

  function Times(n: nat, x: nat): nat {
    if n == 0 then 0 else x + Times(n - 1, x)
  }

  lemma {:induction false} TimesIsProduct(n: nat, x: nat)
    ensures Times(n, x) == n * x
  {
    if n > 0 {
      TimesIsProduct(n - 1, x);
      assert n * x == (n - 1) * x + x;
    }
  }

  lemma {:induction false} TimesGrows(m: nat, n: nat, x: nat)
    requires m <= n
    ensures Times(m, x) <= Times(n, x)
  {
    if m < n {
      TimesGrows(m, n - 1, x);
    }
  }

  /** Visits below one child, and below an index, with this many levels left. */
  function Reach(rank: nat): nat
    decreases rank, 1
  {
    Times(MAX_CHILD_SITEMAPS, ChildReach(rank))
  }

  function ChildReach(rank: nat): nat
    decreases rank, 0
  {
    1 + if rank > 1 then Reach(rank - 1) else 0
  }

  lemma ChildVisits(p: Setting, s: Walk, e: ChildEntry, depth: nat)
    ensures |Child(p, s, e, depth).visits| <= |s.visits| + ChildReach(Rank(p, depth))
    decreases Rank(p, depth), 0, 0
  {
    hide Index, Surplus, AfterUpsert, AfterAdvance, Times, Processed, FilteredItems, MissingLastmod;
    var known := s.(db := AfterUpsert(s.db, e.loc, if e.loc in s.db.targets then None else Some(Some(e.lastmod))));
    var fetched := known.(counts := s.counts.(fetchesUsed := s.counts.fetchesUsed + 1));
    match p.fetch(fetched.counts.fetchesUsed, e.loc)
    case SitemapIndex(items) =>
      if depth + 1 < p.maxDepth {
        IndexVisits(p, fetched, items, depth + 1);
      }
    case _ =>
  }

  lemma ChildrenVisits(p: Setting, s: Walk, entries: seq<ChildEntry>, depth: nat)
    ensures |Children(p, s, entries, depth).visits| <= |s.visits| + Times(|entries|, ChildReach(Rank(p, depth)))
    decreases Rank(p, depth), 1, |entries|
  {
    hide Child, ChildReach;
    if entries != [] {
      ChildVisits(p, s, entries[0], depth);
      ChildrenVisits(p, Child(p, s, entries[0], depth), entries[1..], depth);
    }
  }

  lemma IndexVisits(p: Setting, s: Walk, items: seq<Item>, depth: nat)
    ensures |Index(p, s, items, depth).visits| <= |s.visits| + Reach(Rank(p, depth))
    decreases Rank(p, depth), 2, 0
  {
    hide Children, Selected, Times, ChildReach, MissingLastmod, PatternExcluded;
    ChildrenVisits(p, s.(counts := IndexCounts(p, s.counts, items)), Kept(p, items), depth);
    TimesGrows(|Kept(p, items)|, MAX_CHILD_SITEMAPS, ChildReach(Rank(p, depth)));
  }

  /** However the web is linked, a check with the default depth makes at most 20 + 20 * 20 + 20 * 20 * 20 visits. */
  lemma DefaultReach(p: Setting, db: Db, items: seq<Item>)
    requires p.maxDepth == DEFAULT_MAX_TRAVERSAL_DEPTH
    ensures |WholeCheck(p, db, items).visits| <= 8420
  {
    hide Index, Times, Reach;
    IndexVisits(p, Walk(db, NO_COUNTS, []), items, 0);
    ReachStep(1);
    ReachStep(2);
    ReachStep(3);
  }

  lemma ReachStep(rank: nat)
    ensures Reach(rank) == 20 * (1 + if rank > 1 then Reach(rank - 1) else 0)
  {
    TimesIsProduct(MAX_CHILD_SITEMAPS, ChildReach(rank));
  }

  // ----- the tables

  ghost predicate Keeps(a: Db, b: Db) {
    (Inv(a) ==> Inv(b)) && Grows(a, b)
  }

  lemma KeepsTrans(a: Db, b: Db, c: Db)
    requires Keeps(a, b) && Keeps(b, c)
    ensures Keeps(a, c)
  {
    hide Inv, Grows;
    GrowsTrans(a, b, c);
  }

  lemma KeepsSelf(db: Db)
    ensures Keeps(db, db)
  {
  }

  lemma UpsertKeeps(db: Db, url: Url, watermark: Option<Option<Time>>)
    requires url !in db.targets || watermark == None
    ensures Keeps(db, AfterUpsert(db, url, watermark))
  {
    hide Inv, Grows;
    if Inv(db) { UpsertInv(db, url, watermark); }
    UpsertGrows(db, url, watermark);
  }

  lemma AdvanceKeeps(db: Db, url: Url, to: Time)
    ensures Keeps(db, AfterAdvance(db, url, to))
  {
    hide Inv, Grows;
    if Inv(db) { AdvanceInv(db, url, to); }
    AdvanceGrows(db, url, to);
  }

  lemma KeptInv(a: Db, b: Db)
    requires Keeps(a, b) && Inv(a)
    ensures Inv(b)
  {
  }

  function AfterItems(p: Setting, db: Db, items: seq<Item>): Db {
    var filtered := FilteredItems(items, p.cutoff);
    if filtered == [] then db else Processed(p.check, db, ToProcess(filtered, MAX_FEED_ITEMS_PER_CHECK))
  }

  lemma ItemsKeep(p: Setting, db: Db, items: seq<Item>)
    requires Inv(db)
    ensures Keeps(db, AfterItems(p, db, items))
  {
    hide Inv, Grows, Processed, FilteredItems;
    KeepsSelf(db);
    ProcessedKeeps(p.check, db, ToProcess(FilteredItems(items, p.cutoff), MAX_FEED_ITEMS_PER_CHECK));
  }

  /** Reading a URL set ends with or without the commit. */
  lemma UrlSetDb(p: Setting, s: Walk, items: seq<Item>, v: Visit)
    requires !v.committed
    ensures var after := AfterUrlSet(p, s, items, v); var db := AfterItems(p, s.db, items);
      && |after.visits| == |s.visits| + 1
      && after.db == (if after.visits[|s.visits|].committed then AfterAdvance(db, v.url, v.lastmod) else db)
      && after.visits
      == s.visits + [v.(cut := after.visits[|s.visits|].cut, committed := after.visits[|s.visits|].committed)]
      && after.counts.fetchesUsed == s.counts.fetchesUsed
  {
    hide Processed, FilteredItems, MissingLastmod, AfterAdvance;
  }

  lemma UrlSetKeeps(p: Setting, s: Walk, items: seq<Item>, v: Visit)
    requires Inv(s.db) && !v.committed
    ensures Keeps(s.db, AfterUrlSet(p, s, items, v).db)
  {
    hide Keeps, Inv, AfterAdvance, AfterItems, AfterUrlSet;
    var db := AfterItems(p, s.db, items);
    UrlSetDb(p, s, items, v);
    ItemsKeep(p, s.db, items);
    AdvanceKeeps(db, v.url, v.lastmod);
    KeepsTrans(s.db, db, AfterAdvance(db, v.url, v.lastmod));
  }

  lemma ChildKeeps(p: Setting, s: Walk, e: ChildEntry, depth: nat)
    requires Inv(s.db)
    ensures Keeps(s.db, Child(p, s, e, depth).db)
    decreases Rank(p, depth), 0, 0
  {
    hide Keeps, Inv, Index, AfterUrlSet, Surplus, AfterUpsert, AfterAdvance;
    var v := Visit(e.loc, e.lastmod, depth, e.loc in s.db.targets, OutOfOrigin, 0, false, |s.visits|);
    var initially := if v.existed then None else Some(Some(e.lastmod));
    var known := s.(db := AfterUpsert(s.db, e.loc, initially));
    KeepsSelf(s.db);
    UpsertKeeps(s.db, e.loc, initially);
    KeptInv(s.db, known.db);
    var fetched := known.(counts := s.counts.(fetchesUsed := s.counts.fetchesUsed + 1));
    match p.fetch(fetched.counts.fetchesUsed, e.loc)
    case UrlSet(items) =>
      UrlSetKeeps(p, fetched, items, v.(end := Expanded));
      KeepsTrans(s.db, known.db, AfterUrlSet(p, fetched, items, v.(end := Expanded)).db);
    case SitemapIndex(items) =>
      if depth + 1 < p.maxDepth {
        var below := Index(p, fetched, items, depth + 1);
        IndexKeeps(p, fetched, items, depth + 1);
        KeepsTrans(s.db, known.db, below.db);
        AdvanceKeeps(below.db, e.loc, e.lastmod);
        KeepsTrans(s.db, below.db, AfterAdvance(below.db, e.loc, e.lastmod));
      }
    case _ =>
  }

  lemma ChildrenKeep(p: Setting, s: Walk, entries: seq<ChildEntry>, depth: nat)
    requires Inv(s.db)
    ensures Keeps(s.db, Children(p, s, entries, depth).db)
    decreases Rank(p, depth), 1, |entries|
  {
    hide Keeps, Inv, Child;
    if entries == [] {
      KeepsSelf(s.db);
    } else {
      var first := Child(p, s, entries[0], depth);
      ChildKeeps(p, s, entries[0], depth);
      KeptInv(s.db, first.db);
      ChildrenKeep(p, first, entries[1..], depth);
      KeepsTrans(s.db, first.db, Children(p, first, entries[1..], depth).db);
    }
  }

  lemma IndexKeeps(p: Setting, s: Walk, items: seq<Item>, depth: nat)
    requires Inv(s.db)
    ensures Keeps(s.db, Index(p, s, items, depth).db)
    decreases Rank(p, depth), 2, 0
  {
    hide Keeps, Inv, Children, Selected, MissingLastmod, PatternExcluded;
    ChildrenKeep(p, s.(counts := IndexCounts(p, s.counts, items)), Kept(p, items), depth);
  }

  datatype Run = Run(setting: Setting, items: seq<Item>, fuel: nat)

  /** Serial checks, each of which may crash. */
  function StateAfter(db: Db, runs: seq<Run>, n: nat): Db
    requires n <= |runs|
  {
    if n == 0 then db
    else WholeCheck(runs[n - 1].setting, StateAfter(db, runs, n - 1).(fuel := runs[n - 1].fuel), runs[n - 1].items).db
  }

  /** Over any run of checks no target's watermark decreases, and the tables keep their invariant. */
  lemma {:induction false} WatermarksNeverDecrease(db: Db, runs: seq<Run>, n: nat)
    requires Inv(db) && n <= |runs|
    ensures Inv(StateAfter(db, runs, n))
    ensures forall u :: u in db.targets ==>
      u in StateAfter(db, runs, n).targets && IsAtLeast(StateAfter(db, runs, n).targets[u], db.targets[u])
  {
    hide Inv, Index;
    if n > 0 {
      WatermarksNeverDecrease(db, runs, n - 1);
      var before := StateAfter(db, runs, n - 1).(fuel := runs[n - 1].fuel);
      RefuelKeepsInv(StateAfter(db, runs, n - 1), runs[n - 1].fuel);
      IndexKeeps(runs[n - 1].setting, Walk(before, NO_COUNTS, []), runs[n - 1].items, 0);
    }
  }

  // ----- why a watermark moves

  ghost predicate CommittedTo(visits: seq<Visit>, from: nat, url: Url, watermark: Option<Time>) {
    exists j :: from <= j < |visits| && visits[j].committed && visits[j].url == url
      && watermark == Some(visits[j].lastmod)
  }

  /** A URL set fetched since lists the page at this time. */
  ghost predicate ListedAt(p: Setting, from: nat, to: nat, url: Url, watermark: Option<Time>) {
    exists n: nat, loc, item :: from < n <= to && p.fetch(n, loc).UrlSet?
      && IsAmong(p.fetch(n, loc).items, item, url, watermark)
  }

  /** From `a` to `b` the watermark stays, or moves to where a visit committed it or a fetched page list has it. */
  ghost predicate Explained(p: Setting, a: Walk, b: Walk, url: Url) {
    url in a.db.targets ==>
      && url in b.db.targets
      && (|| b.db.targets[url] == a.db.targets[url]
          || CommittedTo(b.visits, |a.visits|, url, b.db.targets[url])
          || ListedAt(p, a.counts.fetchesUsed, b.counts.fetchesUsed, url, b.db.targets[url]))
  }

  lemma ExplainedTrans(p: Setting, a: Walk, b: Walk, c: Walk, url: Url)
    requires Explained(p, a, b, url) && Explained(p, b, c, url)
    requires a.visits <= b.visits <= c.visits && a.counts.fetchesUsed <= b.counts.fetchesUsed <= c.counts.fetchesUsed
    ensures Explained(p, a, c, url)
  {
    hide IsAmong;
    if url in a.db.targets && c.db.targets[url] == b.db.targets[url] != a.db.targets[url] {
      if CommittedTo(b.visits, |a.visits|, url, b.db.targets[url]) {
        var j :| |a.visits| <= j < |b.visits| && b.visits[j].committed && b.visits[j].url == url
              && b.db.targets[url] == Some(b.visits[j].lastmod);
        assert c.visits[j] == b.visits[j];
      }
    }
  }

  lemma SameTargets(p: Setting, a: Walk, b: Walk, url: Url)
    requires url in a.db.targets ==> url in b.db.targets && b.db.targets[url] == a.db.targets[url]
    ensures Explained(p, a, b, url)
  {
  }

  lemma ItemsExplain(p: Setting, db: Db, items: seq<Item>, url: Url)
    requires Inv(db) && url in AfterItems(p, db, items).targets
    ensures (url in db.targets && AfterItems(p, db, items).targets[url] == db.targets[url])
         || (exists item :: IsAmong(items, item, url, AfterItems(p, db, items).targets[url]))
  {
    hide Inv, Processed, FilteredItems;
    var filtered := FilteredItems(items, p.cutoff);
    var after := AfterItems(p, db, items);
    if filtered != [] {
      var chosen := ToProcess(filtered, MAX_FEED_ITEMS_PER_CHECK);
      WatermarkAfter(p.check, db, chosen, url);
      if !(url in db.targets && after.targets[url] == db.targets[url]) {
        var item :| IsAmong(chosen, item, url, after.targets[url]);
        assert item in filtered;
        FilteredExactly(items, p.cutoff, item);
        assert IsAmong(items, item, url, after.targets[url]);
      }
    }
  }

  lemma UrlSetExplains(p: Setting, a: Walk, fetched: Walk, items: seq<Item>, v: Visit, url: Url)
    requires Inv(fetched.db) && Explained(p, a, fetched, url) && a.visits == fetched.visits
    requires a.counts.fetchesUsed < fetched.counts.fetchesUsed
    requires p.fetch(fetched.counts.fetchesUsed, v.url) == UrlSet(items) && !v.committed
    ensures Explained(p, a, AfterUrlSet(p, fetched, items, v), url)
  {
    hide Inv, AfterItems, AfterUrlSet, IsAmong;
    var after := AfterUrlSet(p, fetched, items, v);
    UrlSetDb(p, fetched, items, v);
    ItemsKeep(p, fetched.db, items);
    if url in a.db.targets {
      var db := AfterItems(p, fetched.db, items);
      ItemsExplain(p, fetched.db, items, url);
      if after.db.targets[url] != db.targets[url] {
        assert after.visits[|a.visits|].committed;
        assert CommittedTo(after.visits, |a.visits|, url, after.db.targets[url]);
      } else if db.targets[url] != fetched.db.targets[url] {
        var item :| IsAmong(items, item, url, db.targets[url]);
        assert IsAmong(p.fetch(fetched.counts.fetchesUsed, v.url).items, item, url, db.targets[url]);
        assert ListedAt(p, a.counts.fetchesUsed, after.counts.fetchesUsed, url, after.db.targets[url]);
      }
    }
  }

  lemma CommitExplains(p: Setting, a: Walk, b: Walk, v: Visit, url: Url)
    requires Explained(p, a, b, url) && a.visits <= b.visits && a.counts.fetchesUsed <= b.counts.fetchesUsed
    ensures Explained(p, a, Committed(b, v), url) && Explained(p, a, Left(b, v), url)
  {
    var c := Committed(b, v);
    SameTargets(p, b, Left(b, v), url);
    ExplainedTrans(p, a, b, Left(b, v), url);
    assert c.visits[|b.visits|] == v.(committed := true);
    assert Explained(p, b, c, url);
    ExplainedTrans(p, a, b, c, url);
  }

  lemma ChildExplains(p: Setting, s: Walk, e: ChildEntry, depth: nat, url: Url)
    requires Inv(s.db)
    ensures Explained(p, s, Child(p, s, e, depth), url)
    decreases Rank(p, depth), 0, 0
  {
    hide Explained, Inv, Index, AfterUrlSet, Surplus, AfterUpsert, TruncationTotal, Step, Keeps;
    var v := Visit(e.loc, e.lastmod, depth, e.loc in s.db.targets, OutOfOrigin, 0, false, |s.visits|);
    var initially := if v.existed then None else Some(Some(e.lastmod));
    var known := s.(db := AfterUpsert(s.db, e.loc, initially));
    UpsertKeeps(s.db, e.loc, initially);
    KeptInv(s.db, known.db);
    UpsertLeavesOthers(s.db, e.loc, initially, url);
    var after := Child(p, s, e, depth);
    SameTargets(p, s, known, url);
    SameTargets(p, s, s.(counts := after.counts, visits := after.visits), url);
    SameTargets(p, s, known.(counts := after.counts, visits := after.visits), url);
    var fetched := known.(counts := s.counts.(fetchesUsed := s.counts.fetchesUsed + 1));
    SameTargets(p, s, fetched, url);
    match p.fetch(fetched.counts.fetchesUsed, e.loc)
    case UrlSet(items) =>
      UrlSetExplains(p, s, fetched, items, v.(end := Expanded), url);
    case SitemapIndex(items) =>
      if depth + 1 < p.maxDepth {
        var below := Index(p, fetched, items, depth + 1);
        IndexExplains(p, fetched, items, depth + 1, url);
        IndexSteps(p, fetched, items, depth + 1);
        StepOrders(p, fetched, below, Surplus(p, items));
        ExplainedTrans(p, s, fetched, below, url);
        CommitExplains(p, s, below, v.(end := Expanded, cut := Surplus(p, items)), url);
      }
    case _ =>
  }

  lemma StepOrders(p: Setting, a: Walk, b: Walk, own: nat)
    requires Step(p, a, b, own)
    ensures a.visits <= b.visits && a.counts.fetchesUsed <= b.counts.fetchesUsed
  {
  }

  lemma UpsertLeavesOthers(db: Db, url: Url, watermark: Option<Option<Time>>, other: Url)
    requires url !in db.targets || watermark == None
    ensures var after := AfterUpsert(db, url, watermark);
      other in db.targets ==> other in after.targets && after.targets[other] == db.targets[other]
  {
  }

  lemma ChildrenExplain(p: Setting, s: Walk, entries: seq<ChildEntry>, depth: nat, url: Url)
    requires Inv(s.db)
    ensures Explained(p, s, Children(p, s, entries, depth), url)
    decreases Rank(p, depth), 1, |entries|
  {
    hide Explained, Keeps, Inv, Child, Step;
    if entries == [] {
      SameTargets(p, s, s, url);
    } else {
      var first := Child(p, s, entries[0], depth);
      ChildKeeps(p, s, entries[0], depth);
      KeptInv(s.db, first.db);
      ChildExplains(p, s, entries[0], depth, url);
      ChildrenExplain(p, first, entries[1..], depth, url);
      ChildSteps(p, s, entries[0], depth);
      ChildrenStep(p, first, entries[1..], depth);
      StepOrders(p, s, first, 0);
      StepOrders(p, first, Children(p, first, entries[1..], depth), 0);
      ExplainedTrans(p, s, first, Children(p, first, entries[1..], depth), url);
    }
  }

  lemma IndexExplains(p: Setting, s: Walk, items: seq<Item>, depth: nat, url: Url)
    requires Inv(s.db)
    ensures Explained(p, s, Index(p, s, items, depth), url)
    decreases Rank(p, depth), 2, 0
  {
    hide Explained, Inv, Children, Selected, MissingLastmod, PatternExcluded, Step;
    var counted := s.(counts := IndexCounts(p, s.counts, items));
    var after := Children(p, counted, Kept(p, items), depth);
    ChildrenExplain(p, counted, Kept(p, items), depth, url);
    SameTargets(p, s, counted, url);
    ChildrenStep(p, counted, Kept(p, items), depth);
    StepOrders(p, counted, after, 0);
    ExplainedTrans(p, s, counted, after, url);
  }

  /**
    The watermark of a target that was there before the check moves only to the lastmod of a visit that committed, or to
    the time at which a URL set fetched in the check lists the page.
  */
  lemma MovedOnlyByCommit(p: Setting, db: Db, items: seq<Item>, url: Url)
    requires Inv(db) && url in db.targets
    ensures var w := WholeCheck(p, db, items);
      && url in w.db.targets && IsAtLeast(w.db.targets[url], db.targets[url])
      && (|| w.db.targets[url] == db.targets[url]
          || CommittedTo(w.visits, 0, url, w.db.targets[url])
          || ListedAt(p, 0, w.counts.fetchesUsed, url, w.db.targets[url]))
  {
    hide Index, Inv, CommittedTo, ListedAt;
    var start := Walk(db, NO_COUNTS, []);
    IndexExplains(p, start, items, 0, url);
    IndexKeeps(p, start, items, 0);
  }
}
