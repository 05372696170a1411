/**
  What each visit of a check ended with, said by the circumstances it met, and what the counters of a check count: its
  fetches, the children of other origins, the items without a lastmod and the children the patterns exclude.
*/
module SitemapEnds {
  import opened Common
  import opened Database
  import opened Feed
  import opened FeedFrames
  import opened FeedRecovery
  import opened SitemapTraversal
  import opened SitemapCommits
  import opened SitemapReach

  // ----- what a visit met

  datatype Kind = Pages | Sitemaps | Neither

  function KindOf(d: Document): Kind {
    match d
    case UrlSet(_) => Pages
    case SitemapIndex(_) => Sitemaps
    case _ => Neither
  }

  predicate WasFetched(v: Visit) {
    v.end.NoDocument? || v.end.TooDeep? || v.end.Expanded?
  }

  /** One of the fetches made so far answered with a document of this kind. */
  ghost predicate Answered(p: Setting, w: Walk, url: Url, kind: Kind) {
    exists n: nat :: 0 < n <= w.counts.fetchesUsed && KindOf(p.fetch(n, url)) == kind
  }

  ghost predicate EndIsRight(p: Setting, db0: Db, w: Walk, v: Visit) {
    && (v.end.OutOfOrigin? <==> !p.isInOrigin(v.url))
    && (v.end.BaselineOnly? <==> p.isInOrigin(v.url) && p.check.isBaseline)
    && (v.end.Gated? ==> v.url in w.db.targets && IsAtLeast(w.db.targets[v.url], Some(v.lastmod)))
    && (!v.end.OutOfOrigin? && !v.end.BaselineOnly? && !v.end.Gated? ==>
          !(v.url in db0.targets && db0.targets[v.url].Some? && db0.targets[v.url].value >= v.lastmod))
    && (v.end.Disallowed? ==> !p.isFetchAllowed(v.url))
    && (v.end.OverBudget? || WasFetched(v) ==> p.isFetchAllowed(v.url))
    && (v.end.OverBudget? ==> w.counts.fetchesUsed >= p.maxFetches)
    && (v.end.NoDocument? ==> Answered(p, w, v.url, Neither))
    && (v.end.TooDeep? ==> v.depth + 1 >= p.maxDepth && Answered(p, w, v.url, Sitemaps))
    && (v.end.Expanded? ==>
          || Answered(p, w, v.url, Pages)
          || (v.depth + 1 < p.maxDepth && Answered(p, w, v.url, Sitemaps)))
  }

  ghost predicate EndsAreRight(p: Setting, db0: Db, w: Walk) {
    forall k :: 0 <= k < |w.visits| ==> EndIsRight(p, db0, w, w.visits[k])
  }

  ghost predicate IsLater(a: Walk, b: Walk) {
    a.counts.fetchesUsed <= b.counts.fetchesUsed && Grows(a.db, b.db)
  }

  lemma StaysRight(p: Setting, db0: Db, a: Walk, b: Walk, v: Visit)
    requires EndIsRight(p, db0, a, v) && IsLater(a, b)
    ensures EndIsRight(p, db0, b, v)
  {
  }

  lemma AllStayRight(p: Setting, db0: Db, a: Walk, b: Walk)
    requires EndsAreRight(p, db0, a) && IsLater(a, b) && a.visits == b.visits
    ensures EndsAreRight(p, db0, b)
  {
    hide EndIsRight, IsLater;
    forall k | 0 <= k < |b.visits| ensures EndIsRight(p, db0, b, b.visits[k]) {
      StaysRight(p, db0, a, b, a.visits[k]);
    }
  }

  lemma OneMoreRight(p: Setting, db0: Db, a: Walk, b: Walk, v: Visit)
    requires EndsAreRight(p, db0, a) && IsLater(a, b) && b.visits == a.visits + [v] && EndIsRight(p, db0, b, v)
    ensures EndsAreRight(p, db0, b)
  {
    hide EndIsRight, IsLater;
    forall k | 0 <= k < |b.visits| ensures EndIsRight(p, db0, b, b.visits[k]) {
      if k < |a.visits| {
        StaysRight(p, db0, a, b, a.visits[k]);
      }
    }
  }

  lemma ChildIsLater(p: Setting, s: Walk, e: ChildEntry, depth: nat)
    requires Inv(s.db)
    ensures IsLater(s, Child(p, s, e, depth)) && Inv(Child(p, s, e, depth).db)
  {
    hide Inv, Grows, Child, VisitsOk, CutsCounted, TruncationTotal;
    ChildKeeps(p, s, e, depth);
    ChildSteps(p, s, e, depth);
  }

  lemma KnownIsLater(s: Walk, e: ChildEntry)
    requires Inv(s.db)
    ensures IsLater(s, Known(s, e)) && Inv(Known(s, e).db)
    ensures IsLater(s, Fetched(s, e)) && Inv(Fetched(s, e).db)
  {
    hide Inv, Grows, AfterUpsert;
    UpsertKeeps(s.db, e.loc, if e.loc in s.db.targets then None else Some(Some(e.lastmod)));
  }

  /** A document that is read: the target is no gate at the start, and the answer is one of the fetches made. */
  lemma ReadIsRight(p: Setting, db0: Db, s: Walk, b: Walk, e: ChildEntry, v: Visit)
    requires NeverBack(db0, s.db) && p.isInOrigin(e.loc) && !p.check.isBaseline && p.isFetchAllowed(e.loc)
    requires !IsGated(s.db, e.loc, e.lastmod) && WasFetched(v) && v.url == e.loc && v.lastmod == e.lastmod
    requires b.counts.fetchesUsed >= s.counts.fetchesUsed + 1
    requires var kind := KindOf(p.fetch(s.counts.fetchesUsed + 1, e.loc));
      && (v.end.NoDocument? ==> kind == Neither)
      && (v.end.TooDeep? ==> v.depth + 1 >= p.maxDepth && kind == Sitemaps)
      && (v.end.Expanded? ==> kind == Pages || (v.depth + 1 < p.maxDepth && kind == Sitemaps))
    ensures EndIsRight(p, db0, b, v)
  {
    hide KindOf;
  }

  lemma UnreadIsRight(p: Setting, db0: Db, s: Walk, b: Walk, e: ChildEntry, v: Visit)
    requires NeverBack(db0, s.db) && v.url == e.loc && v.lastmod == e.lastmod && IsLater(s, b)
    requires v.end == if !p.isInOrigin(e.loc) then OutOfOrigin
                      else if p.check.isBaseline then BaselineOnly
                      else if IsGated(s.db, e.loc, e.lastmod) then Gated
                      else if !p.isFetchAllowed(e.loc) then Disallowed
                      else OverBudget
    requires v.end.OverBudget? ==> s.counts.fetchesUsed >= p.maxFetches
    ensures EndIsRight(p, db0, b, v)
  {
  }

  lemma CommitIsLater(b: Walk, w: Visit)
    ensures IsLater(b, Left(b, w)) && IsLater(b, Committed(b, w))
  {
    AdvanceGrows(b.db, w.url, w.lastmod);
  }

  lemma ChildEndsRight(p: Setting, db0: Db, s: Walk, e: ChildEntry, depth: nat)
    requires Inv(s.db) && NeverBack(db0, s.db) && EndsAreRight(p, db0, s)
    ensures EndsAreRight(p, db0, Child(p, s, e, depth))
    decreases Rank(p, depth), 0, 0
  {
    hide Inv, Index, AfterUrlSet, Surplus, AfterUpsert, AfterAdvance, TruncationTotal, Grows, EndIsRight, NeverBack;
    hide IsGated, EndsAreRight;
    ChildIsLater(p, s, e, depth);
    KnownIsLater(s, e);
    var after := Child(p, s, e, depth);
    var fetched := Fetched(s, e);
    var v := Visit(e.loc, e.lastmod, depth, e.loc in s.db.targets, OutOfOrigin, 0, false, |s.visits|);
    if !p.isInOrigin(e.loc) || p.check.isBaseline || IsGated(s.db, e.loc, e.lastmod) || !p.isFetchAllowed(e.loc)
      || s.counts.fetchesUsed >= p.maxFetches
    {
      var w := after.visits[|s.visits|];
      assert after.visits == s.visits + [w];
      UnreadIsRight(p, db0, s, after, e, w);
      OneMoreRight(p, db0, s, after, w);
    } else {
      match p.fetch(fetched.counts.fetchesUsed, e.loc)
      case UrlSet(items) =>
        UrlSetDb(p, fetched, items, v.(end := Expanded));
        var w := after.visits[|s.visits|];
        ReadIsRight(p, db0, s, after, e, w);
        OneMoreRight(p, db0, s, after, w);
      case SitemapIndex(items) =>
        if depth + 1 < p.maxDepth {
          var below := Index(p, fetched, items, depth + 1);
          AllStayRight(p, db0, s, fetched);
          ForwardStill(db0, s.db, fetched.db);
          IndexEndsRight(p, db0, fetched, items, depth + 1);
          IndexIsLater(p, fetched, items, depth + 1);
          var w := after.visits[|below.visits|];
          assert after.visits == below.visits + [w];
          CommitIsLater(below, v.(end := Expanded, cut := Surplus(p, items)));
          ReadIsRight(p, db0, s, after, e, w);
          OneMoreRight(p, db0, below, after, w);
        } else {
          var w := after.visits[|s.visits|];
          ReadIsRight(p, db0, s, after, e, w);
          OneMoreRight(p, db0, s, after, w);
        }
      case _ =>
        var w := after.visits[|s.visits|];
        ReadIsRight(p, db0, s, after, e, w);
        OneMoreRight(p, db0, s, after, w);
    }
  }

  lemma IndexIsLater(p: Setting, s: Walk, items: seq<Item>, depth: nat)
    requires Inv(s.db)
    ensures IsLater(s, Index(p, s, items, depth))
  {
    hide Inv, Grows, Index, VisitsOk, CutsCounted, TruncationTotal;
    IndexKeeps(p, s, items, depth);
    IndexSteps(p, s, items, depth);
  }

  lemma ChildrenEndRight(p: Setting, db0: Db, s: Walk, entries: seq<ChildEntry>, depth: nat)
    requires Inv(s.db) && NeverBack(db0, s.db) && EndsAreRight(p, db0, s)
    ensures EndsAreRight(p, db0, Children(p, s, entries, depth))
    decreases Rank(p, depth), 1, |entries|
  {
    hide Inv, Child, NeverBack, EndsAreRight, Grows;
    if entries != [] {
      var first := Child(p, s, entries[0], depth);
      ChildEndsRight(p, db0, s, entries[0], depth);
      ChildIsLater(p, s, entries[0], depth);
      ForwardStill(db0, s.db, first.db);
      ChildrenEndRight(p, db0, first, entries[1..], depth);
    }
  }

  lemma IndexEndsRight(p: Setting, db0: Db, s: Walk, items: seq<Item>, depth: nat)
    requires Inv(s.db) && NeverBack(db0, s.db) && EndsAreRight(p, db0, s)
    ensures EndsAreRight(p, db0, Index(p, s, items, depth))
    decreases Rank(p, depth), 2, 0
  {
    hide Inv, NeverBack, EndIsRight, Children, Kept, IndexCounts;
    var counted := s.(counts := IndexCounts(p, s.counts, items));
    GrowsSelf(p, s, items);
    AllStayRight(p, db0, s, counted);
    ChildrenEndRight(p, db0, counted, Kept(p, items), depth);
  }

  lemma GrowsSelf(p: Setting, s: Walk, items: seq<Item>)
    ensures IsLater(s, s.(counts := IndexCounts(p, s.counts, items)))
  {
    hide MissingLastmod, PatternExcluded, Surplus;
  }

  /**
    What every visit of a whole check met. Outside the origin, in a baseline check, at a watermark, refused, or over the
    budget are the reasons not to fetch; what was fetched was open when the check began.
  */
  lemma EndsAreExplained(p: Setting, db: Db, items: seq<Item>, k: nat)
    requires Inv(db) && k < |WholeCheck(p, db, items).visits|
    ensures EndIsRight(p, db, WholeCheck(p, db, items), WholeCheck(p, db, items).visits[k])
  {
    hide Inv, EndIsRight, Index;
    IndexEndsRight(p, db, Walk(db, NO_COUNTS, []), items, 0);
  }

  // ----- what the counters count

  datatype Tally = Tally(fetches: int, blocked: int, missing: int, excluded: int)

  function Plus(a: Tally, b: Tally): Tally {
    Tally(a.fetches + b.fetches, a.blocked + b.blocked, a.missing + b.missing, a.excluded + b.excluded)
  }

  /** Each listed item counted once, as one without a lastmod or as a recent one that the patterns exclude. */
  function OfItems(p: Setting, items: seq<Item>, isIndex: bool): Tally {
    Tally(0, 0, MissingLastmod(items), if isIndex then PatternExcluded(p, items) else 0)
  }

  function OfVisit(p: Setting, v: Visit): Tally {
    var own := Tally(if WasFetched(v) then 1 else 0, if v.end.OutOfOrigin? then 1 else 0, 0, 0);
    match Doc(p, v.url)
    case UrlSet(items) => if v.end.Expanded? then Plus(own, OfItems(p, items, false)) else own
    case SitemapIndex(items) => if v.end.Expanded? then Plus(own, OfItems(p, items, true)) else own
    case _ => own
  }

  function OfVisits(p: Setting, visits: seq<Visit>): Tally {
    if visits == [] then Tally(0, 0, 0, 0)
    else Plus(OfVisits(p, visits[..|visits| - 1]), OfVisit(p, visits[|visits| - 1]))
  }

  function Counted(c: Counts): Tally {
    Tally(c.fetchesUsed, c.originBlocked, c.missingLastmodSkipped, c.patternExcluded)
  }

  /** From `a` to `b` the counters grew by what the visits in between account for, and by `own`. */
  ghost predicate AddsUp(p: Setting, a: Walk, b: Walk, own: Tally) {
    Plus(Counted(b.counts), OfVisits(p, a.visits)) == Plus(Plus(Counted(a.counts), OfVisits(p, b.visits)), own)
  }

  const NOTHING := Tally(0, 0, 0, 0)

  /** The visit was the only thing counted since `a`, apart from what happened inside it. */
  lemma VisitAddsUp(p: Setting, a: Walk, b: Walk, c: Walk, v: Visit)
    requires AddsUp(p, a, b, OfVisit(p, v)) && c.visits == b.visits + [v] && Counted(c.counts) == Counted(b.counts)
    ensures AddsUp(p, a, c, NOTHING)
  {
    hide OfVisit;
    assert c.visits[..|c.visits| - 1] == b.visits;
  }

  lemma UrlSetCounts(p: Setting, s: Walk, items: seq<Item>, v: Visit)
    requires v.end.Expanded? && !v.committed
    ensures var after := AfterUrlSet(p, s, items, v);
      && |after.visits| == |s.visits| + 1 && after.visits[|s.visits|].end.Expanded?
      && after.visits[|s.visits|].url == v.url
      && Counted(after.counts) == Plus(Counted(s.counts), OfItems(p, items, false))
  {
    hide Processed, FilteredItems, MissingLastmod, AfterAdvance;
  }

  /** A call that fetches nothing counts a child of another origin, or nothing. */
  lemma UnreadCounts(p: Setting, s: Walk, e: ChildEntry, depth: nat)
    requires !p.isInOrigin(e.loc) || p.check.isBaseline || IsGated(s.db, e.loc, e.lastmod)
          || !p.isFetchAllowed(e.loc) || s.counts.fetchesUsed >= p.maxFetches
    ensures var after := Child(p, s, e, depth);
      && |after.visits| == |s.visits| + 1 && !WasFetched(after.visits[|s.visits|])
      && Counted(after.counts)
         == Plus(Counted(s.counts), Tally(0, if after.visits[|s.visits|].end.OutOfOrigin? then 1 else 0, 0, 0))
  {
    hide Index, AfterUpsert, IsGated, AfterUrlSet;
  }

  /** One that reads no index, or one at the depth limit, counts its fetch, and the items of a URL set. */
  lemma ReadCounts(p: Setting, s: Walk, e: ChildEntry, depth: nat)
    requires !GoesBelow(p, s, e, depth) && p.isInOrigin(e.loc) && !p.check.isBaseline
    requires !IsGated(s.db, e.loc, e.lastmod) && p.isFetchAllowed(e.loc) && s.counts.fetchesUsed < p.maxFetches
    ensures var after := Child(p, s, e, depth); var answer := p.fetch(s.counts.fetchesUsed + 1, e.loc);
      && |after.visits| == |s.visits| + 1 && after.visits[|s.visits|].url == e.loc
      && WasFetched(after.visits[|s.visits|]) && (after.visits[|s.visits|].end.Expanded? <==> answer.UrlSet?)
      && Counted(after.counts)
         == Plus(Plus(Counted(s.counts), Tally(1, 0, 0, 0)),
                 if answer.UrlSet? then OfItems(p, answer.items, false) else NOTHING)
  {
    hide Index, AfterUpsert, IsGated, OfItems, AfterUrlSet;
    var v := Visit(e.loc, e.lastmod, depth, e.loc in s.db.targets, Expanded, 0, false, |s.visits|);
    if p.fetch(s.counts.fetchesUsed + 1, e.loc).UrlSet? {
      UrlSetCounts(p, Fetched(s, e), p.fetch(s.counts.fetchesUsed + 1, e.loc).items, v);
    }
  }

  /** Either way it counts what its own visit accounts for. */
  lemma AloneCounts(p: Setting, s: Walk, e: ChildEntry, depth: nat)
    requires IsSteady(p) && !GoesBelow(p, s, e, depth)
    ensures var after := Child(p, s, e, depth);
      && |after.visits| == |s.visits| + 1
      && Counted(after.counts) == Plus(Counted(s.counts), OfVisit(p, after.visits[|s.visits|]))
  {
    hide Child, OfItems, IsGated, GoesBelow;
    if !p.isInOrigin(e.loc) || p.check.isBaseline || IsGated(s.db, e.loc, e.lastmod)
      || !p.isFetchAllowed(e.loc) || s.counts.fetchesUsed >= p.maxFetches
    {
      UnreadCounts(p, s, e, depth);
    } else {
      assert p.fetch(0, e.loc) == p.fetch(s.counts.fetchesUsed + 1, e.loc);
      ReadCounts(p, s, e, depth);
    }
  }

  /** The call that goes on below an index counts one fetch itself and leaves the rest to what comes below. */
  lemma BelowCounts(p: Setting, s: Walk, e: ChildEntry, depth: nat)
    requires IsSteady(p) && GoesBelow(p, s, e, depth)
    ensures var after := Child(p, s, e, depth); var fetched := Fetched(s, e);
      var items := p.fetch(s.counts.fetchesUsed + 1, e.loc).items; var below := Index(p, fetched, items, depth + 1);
      && |after.visits| == |below.visits| + 1
      && Counted(after.counts) == Counted(below.counts)
      && OfVisit(p, after.visits[|below.visits|]) == Plus(Tally(1, 0, 0, 0), OfItems(p, items, true))
      && Counted(fetched.counts) == Plus(Counted(s.counts), Tally(1, 0, 0, 0))
  {
    hide Index, AfterUpsert, AfterAdvance, TruncationTotal, IsGated, OfItems, Surplus;
    assert p.fetch(0, e.loc) == p.fetch(s.counts.fetchesUsed + 1, e.loc);
  }

  lemma ChildAddsUp(p: Setting, s: Walk, e: ChildEntry, depth: nat)
    requires IsSteady(p)
    ensures AddsUp(p, s, Child(p, s, e, depth), NOTHING)
    decreases Rank(p, depth), 0, 0
  {
    hide Child, Index, OfVisits, OfVisit, OfItems, GoesBelow, IsSteady, Known, Counted;
    var after := Child(p, s, e, depth);
    ChildShape(p, s, e, depth);
    if GoesBelow(p, s, e, depth) {
      IsBelow(p, s, e, depth);
      BelowCounts(p, s, e, depth);
      var items := p.fetch(s.counts.fetchesUsed + 1, e.loc).items;
      IndexAddsUp(p, Fetched(s, e), items, depth + 1);
      var below := Index(p, Fetched(s, e), items, depth + 1);
      VisitAddsUp(p, s, below, after, after.visits[|below.visits|]);
    } else {
      AloneCounts(p, s, e, depth);
      VisitAddsUp(p, s, s.(counts := after.counts), after, after.visits[|s.visits|]);
    }
  }

  lemma IsBelow(p: Setting, s: Walk, e: ChildEntry, depth: nat)
    requires GoesBelow(p, s, e, depth)
    ensures p.fetch(s.counts.fetchesUsed + 1, e.loc).SitemapIndex? && depth + 1 < p.maxDepth
    ensures Fetched(s, e).visits == s.visits
  {
  }

  lemma ChildrenAddUp(p: Setting, s: Walk, entries: seq<ChildEntry>, depth: nat)
    requires IsSteady(p)
    ensures AddsUp(p, s, Children(p, s, entries, depth), NOTHING)
    decreases Rank(p, depth), 1, |entries|
  {
    hide Child, OfVisits;
    if entries != [] {
      ChildAddsUp(p, s, entries[0], depth);
      ChildrenAddUp(p, Child(p, s, entries[0], depth), entries[1..], depth);
    }
  }

  lemma IndexAddsUp(p: Setting, s: Walk, items: seq<Item>, depth: nat)
    requires IsSteady(p)
    ensures AddsUp(p, s, Index(p, s, items, depth), OfItems(p, items, true))
    decreases Rank(p, depth), 2, 0
  {
    hide Children, OfVisits, Kept, Surplus, MissingLastmod, PatternExcluded;
    ChildrenAddUp(p, s.(counts := IndexCounts(p, s.counts, items)), Kept(p, items), depth);
  }

  /**
    After a whole check the counters say how many documents were fetched, how many children of other origins were met,
    and how many items of all expanded documents had no lastmod or were excluded.
  */
  lemma CountersAddUp(p: Setting, db: Db, items: seq<Item>)
    requires IsSteady(p)
    ensures var w := WholeCheck(p, db, items);
      Counted(w.counts) == Plus(OfItems(p, items, true), OfVisits(p, w.visits))
  {
    hide Index, OfItems, OfVisits, IsSteady;
    var start := Walk(db, NO_COUNTS, []);
    IndexAddsUp(p, start, items, 0);
    NothingVisited(p);
    var all := OfVisits(p, WholeCheck(p, db, items).visits);
    assert Plus(Plus(Counted(NO_COUNTS), all), OfItems(p, items, true)) == Plus(OfItems(p, items, true), all);
  }

  lemma NothingVisited(p: Setting)
    ensures OfVisits(p, []) == NOTHING
  {
  }
}
