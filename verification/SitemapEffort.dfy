/**
  How many fetches a traversal can take, computed from the web and the tables before it starts. A check whose budget is
  not below that is not cut by it, so that the results on which children are visited apply.
*/
module SitemapEffort {
  import opened Common
  import opened Database
  import opened Feed
  import opened FeedRecovery
  import opened SitemapTraversal
  import opened SitemapCommits
  import opened SitemapReach

  /** Fetches, and indexes met at the depth limit. */
  datatype Effort = Effort(fetches: nat, tooDeep: nat)

  function Plus(a: Effort, b: Effort): Effort {
    Effort(a.fetches + b.fetches, a.tooDeep + b.tooDeep)
  }

  /** A child takes effort if it is open, and an index all that its kept children take, each time it is listed. */
  function ChildEffort(p: Setting, db: Db, e: ChildEntry, depth: nat): Effort
    decreases Rank(p, depth), 0, 0
  {
    if !p.isInOrigin(e.loc) || IsGated(db, e.loc, e.lastmod) || !p.isFetchAllowed(e.loc) then Effort(0, 0)
    else if !IsIndex(p, e.loc) then Effort(1, 0)
    else if depth + 1 < p.maxDepth then
      Plus(Effort(1, 0), EffortOf(p, db, Kept(p, Listed(p, e.loc)), depth + 1))
    else Effort(1, 1)
  }

  function EffortOf(p: Setting, db: Db, entries: seq<ChildEntry>, depth: nat): Effort
    decreases Rank(p, depth), 1, |entries|
  {
    if entries == [] then Effort(0, 0)
    else Plus(ChildEffort(p, db, entries[0], depth), EffortOf(p, db, entries[1..], depth))
  }

  predicate IsWithin(before: Counts, after: Counts, effort: Effort) {
    && after.fetchesUsed <= before.fetchesUsed + effort.fetches
    && after.depthTruncated <= before.depthTruncated + effort.tooDeep
    && after.fetchBudgetTruncated == before.fetchBudgetTruncated
  }

  lemma WithinIndex(p: Setting, before: Counts, items: seq<Item>, after: Counts, effort: Effort)
    requires IsWithin(IndexCounts(p, before, items), after, effort)
    ensures IsWithin(before, after, effort)
  {
  }

  lemma ChildWithin(p: Setting, db: Db, s: Walk, e: ChildEntry, depth: nat)
    requires IsSteady(p) && Inv(s.db) && NeverBack(db, s.db)
    requires s.counts.fetchesUsed + ChildEffort(p, db, e, depth).fetches <= p.maxFetches
    ensures IsWithin(s.counts, Child(p, s, e, depth).counts, ChildEffort(p, db, e, depth))
    decreases Rank(p, depth), 0, 0
  {
    hide Inv, NeverBack, Index, Surplus, AfterUpsert, AfterAdvance, Kept, IsGated, Processed, FilteredItems, Grows;
    hide TruncationTotal;
    if !IsGated(s.db, e.loc, e.lastmod) {
      UngatedBefore(db, s.db, e);
      var known, fetched := Known(s, e), Fetched(s, e);
      var document := p.fetch(fetched.counts.fetchesUsed, e.loc);
      assert p.fetch(0, e.loc) == document;
      if document.SitemapIndex? && depth + 1 < p.maxDepth && GoesBelow(p, s, e, depth) {
        UpsertKeeps(s.db, e.loc, if e.loc in s.db.targets then None else Some(Some(e.lastmod)));
        KeptInv(s.db, known.db);
        ForwardStill(db, s.db, known.db);
        IndexWithin(p, db, fetched, document.items, depth + 1);
      }
    }
  }

  lemma ChildrenWithin(p: Setting, db: Db, s: Walk, entries: seq<ChildEntry>, depth: nat)
    requires IsSteady(p) && Inv(s.db) && NeverBack(db, s.db)
    requires s.counts.fetchesUsed + EffortOf(p, db, entries, depth).fetches <= p.maxFetches
    ensures IsWithin(s.counts, Children(p, s, entries, depth).counts, EffortOf(p, db, entries, depth))
    decreases Rank(p, depth), 1, |entries|
  {
    hide Inv, NeverBack, Child, ChildEffort, Grows;
    if entries != [] {
      var first := Child(p, s, entries[0], depth);
      ChildWithin(p, db, s, entries[0], depth);
      ChildKeeps(p, s, entries[0], depth);
      KeptInv(s.db, first.db);
      ForwardStill(db, s.db, first.db);
      ChildrenWithin(p, db, first, entries[1..], depth);
    }
  }

  lemma IndexWithin(p: Setting, db: Db, s: Walk, items: seq<Item>, depth: nat)
    requires IsSteady(p) && Inv(s.db) && NeverBack(db, s.db)
    requires s.counts.fetchesUsed + EffortOf(p, db, Kept(p, items), depth).fetches <= p.maxFetches
    ensures IsWithin(s.counts, Index(p, s, items, depth).counts, EffortOf(p, db, Kept(p, items), depth))
    decreases Rank(p, depth), 2, 0
  {
    hide Inv, NeverBack, Children, EffortOf, Kept, Surplus, MissingLastmod, PatternExcluded;
    ChildrenWithin(p, db, s.(counts := IndexCounts(p, s.counts, items)), Kept(p, items), depth);
    WithinIndex(p, s.counts, items, Index(p, s, items, depth).counts, EffortOf(p, db, Kept(p, items), depth));
  }

  /** A check takes no more fetches than its web can take from it, and a budget of so many is never exceeded. */
  lemma CheckWithin(p: Setting, db: Db, items: seq<Item>)
    requires IsSteady(p) && Inv(db) && EffortOf(p, db, Kept(p, items), 0).fetches <= p.maxFetches
    ensures var counts := WholeCheck(p, db, items).counts; var effort := EffortOf(p, db, Kept(p, items), 0);
      && counts.fetchBudgetTruncated == 0
      && counts.fetchesUsed <= effort.fetches && counts.depthTruncated <= effort.tooDeep
  {
    hide Inv, EffortOf, Index, Kept;
    IndexWithin(p, db, Walk(db, NO_COUNTS, []), items, 0);
  }

  /** What a check can be tested for before it starts. */
  ghost predicate FitsLimits(p: Setting, db: Db, items: seq<Item>) {
    && Inv(db) && IsSteady(p) && !p.check.isBaseline
    && (forall u :: IsIndex(p, u) ==> IsNoPage(p, u))
    && EffortOf(p, db, Kept(p, items), 0).fetches <= p.maxFetches
    && (EffortOf(p, db, Kept(p, items), 0).tooDeep == 0 || forall u :: IsIndex(p, u) ==> u in db.targets)
  }

  /** Then it visits exactly the children that a chain of open indexes leads to, as the results above ask of it. */
  lemma FittingVisitsExactly(p: Setting, db: Db, items: seq<Item>, e: ChildEntry)
    requires FitsLimits(p, db, items)
    ensures IsOrderly(p, db, items)
    ensures WasVisited(WholeCheck(p, db, items).visits, e) <==> HasPath(p, db, [], items, e)
  {
    hide Inv, EffortOf, Kept, WholeCheck, IsNoPage, IsSteady, HasPath, WasVisited;
    CheckWithin(p, db, items);
    VisitedExactly(p, db, items, e);
  }
}
