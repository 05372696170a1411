/**
  What a committed visit to a URL set stands for. Once its watermark is moved the set is not read again at that lastmod,
  so by then every page it lists from the cutoff on has to be dealt with, and no other page may be.
*/
module SitemapPages {
  import opened Common
  import opened Database
  import opened Feed
  import opened FeedFrames
  import opened FeedRecovery
  import opened FeedAnnouncements
  import opened FeedNewItems
  import opened FeedSelection
  import opened SitemapTraversal
  import opened SitemapCommits
  import opened SitemapReach

  /** The set lists the page at a lastmod from the cutoff on, and it may be fetched. */
  predicate IsCurrentPage(p: Setting, items: seq<Item>, item: Item) {
    && item in items && item.url.Some? && p.check.isAllowed(item.url.value)
    && item.updatedAt.Some? && item.updatedAt.value >= p.cutoff
  }

  ghost predicate ListsAsCurrent(p: Setting, items: seq<Item>, url: Url) {
    exists item :: IsCurrentPage(p, items, item) && item.url == Some(url)
  }

  // ----- one URL set

  lemma CommitTakesAll(p: Setting, s: Walk, items: seq<Item>, v: Visit)
    requires !v.committed && AfterUrlSet(p, s, items, v).visits[|s.visits|..] != []
    requires AfterUrlSet(p, s, items, v).visits[|s.visits|].committed
    ensures ToProcess(FilteredItems(items, p.cutoff), MAX_FEED_ITEMS_PER_CHECK) == FilteredItems(items, p.cutoff)
    ensures FilteredItems(items, p.cutoff) != [] ==>
      AfterItems(p, s.db, items) == Processed(p.check, s.db, FilteredItems(items, p.cutoff))
  {
    hide Processed, FilteredItems, MissingLastmod, AfterAdvance;
  }

  /** A visit to a URL set commits exactly if no more than 2000 of its items are from the cutoff on. */
  lemma SetCommitsExactly(p: Setting, s: Walk, items: seq<Item>, v: Visit)
    requires !v.committed
    ensures var after := AfterUrlSet(p, s, items, v).visits; var n := |FilteredItems(items, p.cutoff)|;
      && |after| == |s.visits| + 1
      && (after[|s.visits|].committed <==> n <= 2000)
      && (n > 2000 ==> after[|s.visits|].cut == n - 2000)
  {
    hide Processed, FilteredItems, MissingLastmod, AfterAdvance;
  }

  /** The page is a target with a watermark at the item's time or later. */
  predicate IsKnownAt(db: Db, item: Item) {
    item.url.Some? && item.url.value in db.targets && IsAtLeast(db.targets[item.url.value], item.updatedAt)
  }

  /** The update was announced, or the item is at the time at which the check found its page. */
  ghost predicate IsDealtWith(p: Setting, before: Db, after: Db, items: seq<Item>, item: Item)
    requires item.url.Some?
  {
    && IsKnownAt(after, item)
    && (|| IsAnnounced(after, p.check, item)
        || item.updatedAt == StartTime(before, FilteredItems(items, p.cutoff), item.url.value))
  }

  lemma AllDealtWith(p: Setting, db: Db, items: seq<Item>, item: Item)
    requires Inv(db) && !p.check.isBaseline && IsCurrentPage(p, items, item)
    requires Processed(p.check, db, FilteredItems(items, p.cutoff)).fuel > 0
    ensures IsDealtWith(p, db, Processed(p.check, db, FilteredItems(items, p.cutoff)), items, item)
  {
    hide Inv, Processed, FilteredItems, StartTime, IsAnnounced;
    var filtered := FilteredItems(items, p.cutoff);
    FilteredExactly(items, p.cutoff, item);
    var i :| 0 <= i < |filtered| && filtered[i] == item;
    CompleteRunMoves(p.check, db, filtered, i);
  }

  lemma AdvanceKeepsDealt(p: Setting, before: Db, db: Db, url: Url, to: Time, items: seq<Item>, item: Item)
    requires item.url.Some? && IsDealtWith(p, before, db, items, item)
    ensures IsDealtWith(p, before, AfterAdvance(db, url, to), items, item)
  {
    hide StartTime, FilteredItems;
    var after := AfterAdvance(db, url, to);
    var key := DedupeKey(item.stableKey, item.updatedAt);
    if id: nat :| AnnouncedAt(db, p.check, id, key) {
      AdvanceKeepsAnnounced(p.check, db, url, to, id, key);
    }
  }

  lemma OutsideIsLeft(p: Setting, db: Db, items: seq<Item>, url: Url)
    requires Inv(db) && !ListsAsCurrent(p, items, url)
    ensures var after := Processed(p.check, db, FilteredItems(items, p.cutoff));
      && (url in after.targets <==> url in db.targets)
      && (url in db.targets ==> after.targets[url] == db.targets[url])
  {
    hide Processed, FilteredItems;
    var filtered := FilteredItems(items, p.cutoff);
    if p.check.isAllowed(url) {
      forall item | item in filtered ensures item.url != Some(url) {
        FilteredExactly(items, p.cutoff, item);
      }
      UnlistedStays(p.check, db, filtered, url);
    } else {
      RefusedStaysAsItIs(p.check, db, filtered, url);
    }
  }

  /**
    A visit that commits on a URL set, without a crash, has dealt with every current page it lists, and apart from its
    own target it has not touched any other page.
  */
  lemma CommitDealsWithPages(p: Setting, s: Walk, items: seq<Item>, v: Visit, item: Item, url: Url)
    requires Inv(s.db) && !p.check.isBaseline && !v.committed
    requires AfterUrlSet(p, s, items, v).db.fuel > 0
    requires |AfterUrlSet(p, s, items, v).visits| > |s.visits|
    requires AfterUrlSet(p, s, items, v).visits[|s.visits|].committed
    ensures var after := AfterUrlSet(p, s, items, v).db;
      && (IsCurrentPage(p, items, item) ==> IsDealtWith(p, s.db, after, items, item))
      && (!ListsAsCurrent(p, items, url) && url != v.url ==>
            && (url in after.targets <==> url in s.db.targets)
            && (url in s.db.targets ==> after.targets[url] == s.db.targets[url]))
  {
    hide Inv, Processed, FilteredItems, AfterUrlSet, AfterItems, IsDealtWith, ListsAsCurrent, IsCurrentPage;
    hide AfterAdvance;
    var db := AfterItems(p, s.db, items);
    UrlSetDb(p, s, items, v);
    CommitTakesAll(p, s, items, v);
    AdvanceFuel(db, v.url, v.lastmod);
    if !ListsAsCurrent(p, items, url) && url != v.url {
      if FilteredItems(items, p.cutoff) != [] {
        OutsideIsLeft(p, s.db, items, url);
      }
      NoItemsNoChange(p, s.db, items);
      AdvanceLeaves(db, v.url, v.lastmod, url);
    }
    if IsCurrentPage(p, items, item) {
      CurrentIsFiltered(p, items, item);
      AllDealtWith(p, s.db, items, item);
      HasUrl(p, items, item);
      AdvanceKeepsDealt(p, s.db, db, v.url, v.lastmod, items, item);
    }
  }

  lemma HasUrl(p: Setting, items: seq<Item>, item: Item)
    requires IsCurrentPage(p, items, item)
    ensures item.url.Some?
  {
  }

  lemma CurrentIsFiltered(p: Setting, items: seq<Item>, item: Item)
    requires IsCurrentPage(p, items, item)
    ensures FilteredItems(items, p.cutoff) != []
  {
    FilteredExactly(items, p.cutoff, item);
  }

  lemma NoItemsNoChange(p: Setting, db: Db, items: seq<Item>)
    ensures FilteredItems(items, p.cutoff) == [] ==> AfterItems(p, db, items) == db
  {
  }

  lemma AdvanceFuel(db: Db, url: Url, to: Time)
    ensures AfterAdvance(db, url, to).fuel <= db.fuel
  {
  }

  lemma AdvanceLeaves(db: Db, url: Url, to: Time, other: Url)
    requires other != url
    ensures var after := AfterAdvance(db, url, to);
      && (other in after.targets <==> other in db.targets)
      && (other in db.targets ==> after.targets[other] == db.targets[other])
  {
  }

  /** Among them, the first of an unknown page is announced as a new one. */
  lemma CommitAnnouncesNewPages(p: Setting, s: Walk, items: seq<Item>, v: Visit, i: nat)
    requires Inv(s.db) && !p.check.isBaseline && !v.committed
    requires AfterUrlSet(p, s, items, v).db.fuel > 0
    requires |AfterUrlSet(p, s, items, v).visits| > |s.visits|
    requires AfterUrlSet(p, s, items, v).visits[|s.visits|].committed
    requires i < |FilteredItems(items, p.cutoff)| && IsFirstOfPage(FilteredItems(items, p.cutoff), i)
    requires var item := FilteredItems(items, p.cutoff)[i];
      item.url.Some? && p.check.isAllowed(item.url.value) && item.url.value !in s.db.targets
    ensures exists id: nat ::
      AnnouncedAt(AfterUrlSet(p, s, items, v).db, p.check, id,
                  DedupeKey(FilteredItems(items, p.cutoff)[i].stableKey, None))
  {
    hide Inv, Processed, FilteredItems, AfterUrlSet, AfterItems, AfterAdvance, AnnouncedAt;
    var filtered := FilteredItems(items, p.cutoff);
    var db := AfterItems(p, s.db, items);
    UrlSetDb(p, s, items, v);
    CommitTakesAll(p, s, items, v);
    AdvanceFuel(db, v.url, v.lastmod);
    NewAtItsTurn(p.check, s.db, filtered, i);
    CompleteRunAnnounces(p.check, s.db, filtered, i);
    var key := DedupeKey(filtered[i].stableKey, None);
    var id: nat :| AnnouncedAt(db, p.check, id, key);
    AdvanceKeepsAnnounced(p.check, db, v.url, v.lastmod, id, key);
  }

  lemma NewAtItsTurn(check: Check, db: Db, items: seq<Item>, i: nat)
    requires i < |items| && IsFirstOfPage(items, i) && !IsSkipped(check, items[i]) && items[i].url.value !in db.targets
    ensures IsDue(check, AtTurn(check, db, items, i), items[i])
    ensures DueKey(AtTurn(check, db, items, i), items[i]) == DedupeKey(items[i].stableKey, None)
  {
    hide DetectAll;
    DetectTargets(check, db, items[..i], items[i].url.value);
  }

  lemma AdvanceKeepsAnnounced(check: Check, db: Db, url: Url, to: Time, id: nat, key: DedupeKey)
    requires AnnouncedAt(db, check, id, key)
    ensures AnnouncedAt(AfterAdvance(db, url, to), check, id, key)
  {
  }

  // ----- a whole check

  /** Every current page that the URL set lists is known at its lastmod or a later one. */
  ghost predicate CoversPages(p: Setting, db: Db, items: seq<Item>) {
    forall item :: IsCurrentPage(p, items, item) ==> IsKnownAt(db, item)
  }

  /** As long as no write is lost, each committed visit to a URL set since then covers its pages. */
  ghost predicate AllCover(p: Setting, w: Walk, from: nat) {
    w.db.fuel > 0 ==>
      forall k :: from <= k < |w.visits| && w.visits[k].committed && Doc(p, w.visits[k].url).UrlSet? ==>
        CoversPages(p, w.db, Doc(p, w.visits[k].url).items)
  }

  lemma CoverStays(p: Setting, a: Db, b: Db, items: seq<Item>)
    requires CoversPages(p, a, items) && Grows(a, b)
    ensures CoversPages(p, b, items)
  {
  }

  lemma AllCoverCompose(p: Setting, a: Walk, b: Walk, from: nat)
    requires AllCover(p, a, from) && AllCover(p, b, |a.visits|) && a.visits <= b.visits && Grows(a.db, b.db)
    ensures AllCover(p, b, from)
  {
    hide CoversPages;
    if b.db.fuel > 0 {
      FuelNeverGrows(a.db, b.db);
      forall k | from <= k < |b.visits| && b.visits[k].committed && Doc(p, b.visits[k].url).UrlSet?
        ensures CoversPages(p, b.db, Doc(p, b.visits[k].url).items)
      {
        if k < |a.visits| {
          assert b.visits[k] == a.visits[k];
          CoverStays(p, a.db, b.db, Doc(p, b.visits[k].url).items);
        }
      }
    }
  }

  lemma UrlSetCovers(p: Setting, s: Walk, items: seq<Item>, v: Visit)
    requires Inv(s.db) && !p.check.isBaseline && !v.committed && Doc(p, v.url) == UrlSet(items)
    ensures AllCover(p, AfterUrlSet(p, s, items, v), |s.visits|)
  {
    hide Inv, AfterUrlSet, IsCurrentPage, AfterItems;
    var after := AfterUrlSet(p, s, items, v);
    UrlSetDb(p, s, items, v);
    if after.db.fuel > 0 && after.visits[|s.visits|].committed {
      forall item | IsCurrentPage(p, items, item) ensures IsKnownAt(after.db, item) {
        HasUrl(p, items, item);
        CommitDealsWithPages(p, s, items, v, item, v.url);
      }
    }
  }

  lemma ChildCovers(p: Setting, s: Walk, e: ChildEntry, depth: nat)
    requires IsSteady(p) && Inv(s.db) && !p.check.isBaseline
    ensures AllCover(p, Child(p, s, e, depth), |s.visits|)
    decreases Rank(p, depth), 0, 0
  {
    hide Inv, Index, AfterUrlSet, Surplus, AfterUpsert, AfterAdvance, TruncationTotal, Grows, CoversPages;
    var known, fetched := Known(s, e), Fetched(s, e);
    assert p.fetch(0, e.loc) == p.fetch(fetched.counts.fetchesUsed, e.loc);
    UpsertKeeps(s.db, e.loc, if e.loc in s.db.targets then None else Some(Some(e.lastmod)));
    KeptInv(s.db, known.db);
    var v := Visit(e.loc, e.lastmod, depth, e.loc in s.db.targets, Expanded, 0, false, |s.visits|);
    match p.fetch(fetched.counts.fetchesUsed, e.loc)
    case UrlSet(items) => UrlSetCovers(p, fetched, items, v);
    case SitemapIndex(items) =>
      if depth + 1 < p.maxDepth {
        var below := Index(p, fetched, items, depth + 1);
        IndexCovers(p, fetched, items, depth + 1);
        OrderedIndex(p, fetched, items, depth + 1);
        CoverAfterIndex(p, below, |s.visits|, v.(cut := Surplus(p, items)));
      }
    case _ =>
  }

  /** The index itself is no URL set, and its commit moves watermarks only forward. */
  lemma CoverAfterIndex(p: Setting, below: Walk, from: nat, w: Visit)
    requires AllCover(p, below, from) && !w.committed && Doc(p, w.url).SitemapIndex?
    ensures AllCover(p, Left(below, w), from) && AllCover(p, Committed(below, w), from)
  {
    hide CoversPages, AfterAdvance;
    AdvanceGrows(below.db, w.url, w.lastmod);
    var after := AfterAdvance(below.db, w.url, w.lastmod);
    FuelNeverGrows(below.db, after);
    hide Grows;
    forall k | from <= k < |below.visits| && below.visits[k].committed && Doc(p, below.visits[k].url).UrlSet?
            && after.fuel > 0
      ensures CoversPages(p, after, Doc(p, below.visits[k].url).items)
    {
      CoverStays(p, below.db, after, Doc(p, below.visits[k].url).items);
    }
  }

  lemma ChildrenCover(p: Setting, s: Walk, entries: seq<ChildEntry>, depth: nat)
    requires IsSteady(p) && Inv(s.db) && !p.check.isBaseline
    ensures AllCover(p, Children(p, s, entries, depth), |s.visits|)
    decreases Rank(p, depth), 1, |entries|
  {
    hide Inv, Child, Grows, CoversPages;
    if entries != [] {
      var first := Child(p, s, entries[0], depth);
      ChildCovers(p, s, entries[0], depth);
      ChildKeeps(p, s, entries[0], depth);
      KeptInv(s.db, first.db);
      ChildrenCover(p, first, entries[1..], depth);
      ChildrenKeep(p, first, entries[1..], depth);
      OrderedChild(p, s, entries[0], depth);
      OrderedChildren(p, first, entries[1..], depth);
      AllCoverCompose(p, first, Children(p, first, entries[1..], depth), |s.visits|);
    }
  }

  lemma IndexCovers(p: Setting, s: Walk, items: seq<Item>, depth: nat)
    requires IsSteady(p) && Inv(s.db) && !p.check.isBaseline
    ensures AllCover(p, Index(p, s, items, depth), |s.visits|)
    decreases Rank(p, depth), 2, 0
  {
    hide Inv, Children, Kept, CoversPages, MissingLastmod, PatternExcluded, Surplus;
    ChildrenCover(p, s.(counts := IndexCounts(p, s.counts, items)), Kept(p, items), depth);
  }

  /**
    After a whole check without a crash: if the visit to a URL set committed, every page the set lists from the cutoff
    on, and that may be fetched, is a target with a watermark at its lastmod or later.
  */
  lemma CommittedSetsAreCovered(p: Setting, db: Db, items: seq<Item>, k: nat, item: Item)
    requires IsSteady(p) && Inv(db) && !p.check.isBaseline && WholeCheck(p, db, items).db.fuel > 0
    requires k < |WholeCheck(p, db, items).visits| && WholeCheck(p, db, items).visits[k].committed
    requires Doc(p, WholeCheck(p, db, items).visits[k].url).UrlSet?
    requires IsCurrentPage(p, Doc(p, WholeCheck(p, db, items).visits[k].url).items, item)
    ensures IsKnownAt(WholeCheck(p, db, items).db, item)
  {
    hide Inv, Index;
    IndexCovers(p, Walk(db, NO_COUNTS, []), items, 0);
  }
}
