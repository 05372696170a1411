/**
  Which children a traversal gets to, and which of them the next check gets to again. A child is visited exactly if some
  chain of index documents leads to it none of which is gated; and a check gates an index for the next one by committing
  it, or by meeting it for the first time, whatever became of the children below.
*/
module SitemapReach {
  import opened Common
  import opened Database
  import opened Feed
  import opened FeedFrames
  import opened FeedRecovery
  import opened FeedAnnouncements
  import opened SitemapTraversal
  import opened SitemapCommits

  // ----- the web of one check

  ghost predicate IsSteady(p: Setting) {
    forall m: nat, n: nat, u :: p.fetch(m, u) == p.fetch(n, u)
  }

  function Doc(p: Setting, url: Url): Document {
    p.fetch(0, url)
  }

  /** What an index document lists; nothing for any other. */
  function Listed(p: Setting, url: Url): seq<Item> {
    match Doc(p, url)
    case SitemapIndex(items) => items
    case _ => []
  }

  predicate IsIndex(p: Setting, url: Url) {
    Doc(p, url).SitemapIndex?
  }

  /** No URL set of the web lists this URL as one of its pages. */
  ghost predicate IsNoPage(p: Setting, url: Url) {
    forall n: nat, loc, item :: p.fetch(n, loc).UrlSet? && item in p.fetch(n, loc).items ==> item.url != Some(url)
  }

  // ----- what gates a target

  /** The visit leaves a watermark at its lastmod: it commits, or registers a new target. */
  predicate SetsWatermark(v: Visit, url: Url) {
    v.url == url && !v.end.OutOfOrigin? && (v.committed || !v.existed)
  }

  ghost predicate MovedPast(visits: seq<Visit>, e: ChildEntry) {
    exists k :: 0 <= k < |visits| && SetsWatermark(visits[k], e.loc) && e.lastmod <= visits[k].lastmod
  }

  ghost predicate SetBy(visits: seq<Visit>, url: Url, watermark: Option<Time>) {
    exists k :: 0 <= k < |visits| && SetsWatermark(visits[k], url) && watermark == Some(visits[k].lastmod)
  }

  /**
    A watermark is the one from before the check, or a visit set it; `busy` are the new targets still being visited.
  */
  ghost predicate TargetOk(p: Setting, db0: Db, db: Db, visits: seq<Visit>, busy: map<Url, Time>, url: Url) {
    IsNoPage(p, url) && url in db.targets ==>
      || (url in db0.targets && db.targets[url] == db0.targets[url])
      || (url in busy && db.targets[url] == Some(busy[url]))
      || SetBy(visits, url, db.targets[url])
  }

  ghost predicate GateExplained(db0: Db, visits: seq<Visit>, busy: map<Url, Time>, e: ChildEntry) {
    || IsGated(db0, e.loc, e.lastmod)
    || (e.loc in busy && e.lastmod <= busy[e.loc])
    || MovedPast(visits, e)
  }

  function EntryOf(v: Visit): ChildEntry {
    ChildEntry(v.url, v.lastmod)
  }

  ghost predicate IsVisited(visits: seq<Visit>, from: int, to: int, e: ChildEntry, depth: nat) {
    exists j :: 0 <= from <= j < to <= |visits| && EntryOf(visits[j]) == e && visits[j].depth == depth
  }

  predicate IsPastGate(end: End) {
    !end.OutOfOrigin? && !end.BaselineOnly? && !end.Gated?
  }

  /** How far a visit got says what it met. */
  ghost predicate EndFact(p: Setting, db0: Db, v: Visit) {
    && (v.end.OutOfOrigin? <==> !p.isInOrigin(v.url))
    && (p.check.isBaseline ==> !IsPastGate(v.end) && !v.end.Gated?)
    && (v.end.BaselineOnly? ==> p.check.isBaseline)
    && (v.end.Gated? ==> v.existed)
    && (v.end.Disallowed? ==> !p.isFetchAllowed(v.url))
    && (v.end.TooDeep? ==> v.depth + 1 >= p.maxDepth)
    && (IsPastGate(v.end) ==> !IsGated(db0, v.url, v.lastmod))
    && (v.url in db0.targets ==> v.existed)
    && (v.end.NoDocument? && IsSteady(p) ==> !IsIndex(p, v.url))
  }

  /** An expanded index has had each of its kept children visited one level down. */
  ghost predicate ExpansionFact(p: Setting, visits: seq<Visit>, k: int)
    requires 0 <= k < |visits|
  {
    visits[k].end.Expanded? && IsSteady(p) ==>
      forall e :: e in Kept(p, Listed(p, visits[k].url)) ==>
        IsVisited(visits, visits[k].first, k, e, visits[k].depth + 1)
  }

  ghost predicate GateFact(p: Setting, db0: Db, visits: seq<Visit>, busy: map<Url, Time>, v: Visit) {
    v.end.Gated? && IsNoPage(p, v.url) ==> GateExplained(db0, visits, busy, EntryOf(v))
  }

  /** As long as no write is lost, what a visit set is a lower bound for good. */
  ghost predicate HasLanded(db: Db, v: Visit) {
    db.fuel > 0 && SetsWatermark(v, v.url) ==> v.url in db.targets && IsAtLeast(db.targets[v.url], Some(v.lastmod))
  }

  ghost predicate Fact(p: Setting, db0: Db, db: Db, visits: seq<Visit>, busy: map<Url, Time>, k: int)
    requires 0 <= k < |visits|
  {
    && EndFact(p, db0, visits[k]) && ExpansionFact(p, visits, k)
    && GateFact(p, db0, visits, busy, visits[k]) && HasLanded(db, visits[k])
  }

  ghost predicate WalkOk(p: Setting, db0: Db, s: Walk, busy: map<Url, Time>) {
    && Inv(s.db) && NeverBack(db0, s.db)
    && (forall u :: u in busy ==> u in s.db.targets)
    && (forall u :: TargetOk(p, db0, s.db, s.visits, busy, u))
    && (forall k :: 0 <= k < |s.visits| ==> Fact(p, db0, s.db, s.visits, busy, k))
  }

  // ----- facts stay facts

  lemma SetStays(a: seq<Visit>, b: seq<Visit>, url: Url, watermark: Option<Time>)
    requires a <= b && SetBy(a, url, watermark)
    ensures SetBy(b, url, watermark)
  {
    var k :| 0 <= k < |a| && SetsWatermark(a[k], url) && watermark == Some(a[k].lastmod);
    assert b[k] == a[k];
  }

  lemma PastStays(a: seq<Visit>, b: seq<Visit>, e: ChildEntry)
    requires a <= b && MovedPast(a, e)
    ensures MovedPast(b, e)
  {
    var k :| 0 <= k < |a| && SetsWatermark(a[k], e.loc) && e.lastmod <= a[k].lastmod;
    assert b[k] == a[k];
  }

  lemma VisitedStays(a: seq<Visit>, b: seq<Visit>, from: int, to: int, e: ChildEntry, depth: nat)
    requires a <= b && IsVisited(a, from, to, e, depth)
    ensures IsVisited(b, from, to, e, depth)
  {
    var j :| 0 <= from <= j < to <= |a| && EntryOf(a[j]) == e && a[j].depth == depth;
    assert b[j] == a[j];
  }

  lemma ExpansionStays(p: Setting, a: seq<Visit>, b: seq<Visit>, k: int)
    requires a <= b && 0 <= k < |a| && ExpansionFact(p, a, k)
    ensures ExpansionFact(p, b, k)
  {
    hide Kept, Listed;
    var v := a[k];
    assert b[k] == v;
    if v.end.Expanded? && IsSteady(p) {
      forall e | e in Kept(p, Listed(p, v.url)) ensures IsVisited(b, v.first, k, e, v.depth + 1) {
        VisitedStays(a, b, v.first, k, e, v.depth + 1);
      }
    }
  }

  lemma LandedStays(a: Db, b: Db, v: Visit)
    requires Grows(a, b) && HasLanded(a, v)
    ensures HasLanded(b, v)
  {
  }

  /** The new target that a visit was busy with is from now on one that the visit has set. */
  ghost predicate Settles(busy: map<Url, Time>, after: map<Url, Time>, v: Visit) {
    || busy == after
    || (v.url !in after && busy == after[v.url := v.lastmod] && !v.existed && !v.end.OutOfOrigin?)
  }

  lemma GateStays(db0: Db, a: seq<Visit>, v: Visit, busy: map<Url, Time>, after: map<Url, Time>, e: ChildEntry)
    requires GateExplained(db0, a, busy, e) && Settles(busy, after, v)
    ensures GateExplained(db0, a + [v], after, e)
  {
    var b := a + [v];
    if MovedPast(a, e) {
      PastStays(a, b, e);
    } else if busy != after && e.loc == v.url {
      assert b[|a|] == v;
    }
  }

  lemma TargetStays(p: Setting, db0: Db, a: Walk, b: Walk, v: Visit, busy: map<Url, Time>, after: map<Url, Time>,
                    u: Url)
    requires TargetOk(p, db0, a.db, a.visits, busy, u) && Settles(busy, after, v)
    requires b.visits == a.visits + [v]
    requires b.db == a.db || (v.committed && !v.end.OutOfOrigin? && b.db == AfterAdvance(a.db, v.url, v.lastmod))
    ensures TargetOk(p, db0, b.db, b.visits, after, u)
  {
    hide IsNoPage;
    if IsNoPage(p, u) && u in b.db.targets {
      assert b.visits[|a.visits|] == v;
      if b.db.targets[u] != a.db.targets[u] {
        assert SetBy(b.visits, u, b.db.targets[u]);
      } else if SetBy(a.visits, u, a.db.targets[u]) {
        SetStays(a.visits, b.visits, u, a.db.targets[u]);
      } else if busy != after && u == v.url && a.db.targets[u] == Some(busy[u]) {
        assert SetBy(b.visits, u, b.db.targets[u]);
      }
    }
  }

  /** A visit is recorded, with or without its commit. */
  lemma Exit(p: Setting, db0: Db, a: Walk, b: Walk, v: Visit, busy: map<Url, Time>, after: map<Url, Time>)
    requires WalkOk(p, db0, a, busy) && Settles(busy, after, v) && b.visits == a.visits + [v]
    requires b.db == a.db || (v.committed && !v.end.OutOfOrigin? && b.db == AfterAdvance(a.db, v.url, v.lastmod))
    requires Fact(p, db0, b.db, b.visits, after, |a.visits|)
    ensures WalkOk(p, db0, b, after)
  {
    hide Inv, EndFact, ExpansionFact, HasLanded, TargetOk, GateExplained, NeverBack;
    AdvanceKeeps(a.db, v.url, v.lastmod);
    KeepsSelf(a.db);
    ForwardStill(db0, a.db, b.db);
    forall u ensures TargetOk(p, db0, b.db, b.visits, after, u) {
      assert TargetOk(p, db0, a.db, a.visits, busy, u);
      TargetStays(p, db0, a, b, v, busy, after, u);
    }
    forall k | 0 <= k < |b.visits| ensures Fact(p, db0, b.db, b.visits, after, k) {
      if k < |a.visits| {
        assert Fact(p, db0, a.db, a.visits, busy, k) && b.visits[k] == a.visits[k];
        ExpansionStays(p, a.visits, b.visits, k);
        LandedStays(a.db, b.db, a.visits[k]);
        if a.visits[k].end.Gated? && IsNoPage(p, a.visits[k].url) {
          GateStays(db0, a.visits, v, busy, after, EntryOf(a.visits[k]));
        }
      }
    }
    forall u | u in after ensures u in b.db.targets {
      assert u in busy;
      StillThere(a.db, b.db, u);
    }
  }

  lemma StillThere(a: Db, b: Db, u: Url)
    requires Grows(a, b) && u in a.targets
    ensures u in b.targets
  {
  }

  lemma ForwardStill(db0: Db, a: Db, b: Db)
    requires NeverBack(db0, a) && Grows(a, b)
    ensures NeverBack(db0, b)
  {
  }

  /** The state changes, no visit is recorded, and no watermark of what is no page. */
  lemma Between(p: Setting, db0: Db, a: Walk, b: Walk, busy: map<Url, Time>)
    requires WalkOk(p, db0, a, busy) && b.visits == a.visits && Inv(b.db) && Grows(a.db, b.db)
    requires forall u :: IsNoPage(p, u) && u in b.db.targets ==> u in a.db.targets && b.db.targets[u] == a.db.targets[u]
    ensures WalkOk(p, db0, b, busy)
  {
    hide Inv, EndFact, ExpansionFact, HasLanded, GateFact, NeverBack, SetBy, IsNoPage;
    ForwardStill(db0, a.db, b.db);
    forall u ensures TargetOk(p, db0, b.db, b.visits, busy, u) {
      assert TargetOk(p, db0, a.db, a.visits, busy, u);
    }
    forall k | 0 <= k < |b.visits| ensures Fact(p, db0, b.db, b.visits, busy, k) {
      assert Fact(p, db0, a.db, a.visits, busy, k);
      LandedStays(a.db, b.db, a.visits[k]);
    }
    forall u | u in busy ensures u in b.db.targets {
      StillThere(a.db, b.db, u);
    }
  }

  // ----- the traversal, call by call

  function BusyWith(s: Walk, known: Walk, e: ChildEntry, busy: map<Url, Time>): map<Url, Time> {
    if e.loc !in s.db.targets && e.loc in known.db.targets then busy[e.loc := e.lastmod] else busy
  }

  function Known(s: Walk, e: ChildEntry): Walk {
    s.(db := AfterUpsert(s.db, e.loc, if e.loc in s.db.targets then None else Some(Some(e.lastmod))))
  }

  /** The target is registered if it is new, and the visit is busy with it. */
  lemma Enter(p: Setting, db0: Db, s: Walk, e: ChildEntry, busy: map<Url, Time>)
    requires WalkOk(p, db0, s, busy)
    ensures var known := Known(s, e); var with := BusyWith(s, known, e, busy);
      && WalkOk(p, db0, known, with) && Grows(s.db, known.db)
      && (with == busy || (e.loc !in busy && e.loc !in s.db.targets && with == busy[e.loc := e.lastmod]))
  {
    hide Inv, EndFact, ExpansionFact, HasLanded, NeverBack, SetBy, IsNoPage, MovedPast;
    var known := Known(s, e);
    var with := BusyWith(s, known, e, busy);
    var initially := if e.loc in s.db.targets then None else Some(Some(e.lastmod));
    UpsertKeeps(s.db, e.loc, initially);
    ForwardStill(db0, s.db, known.db);
    forall u ensures TargetOk(p, db0, known.db, known.visits, with, u) {
      assert TargetOk(p, db0, s.db, s.visits, busy, u);
    }
    forall k | 0 <= k < |known.visits| ensures Fact(p, db0, known.db, known.visits, with, k) {
      assert Fact(p, db0, s.db, s.visits, busy, k);
      LandedStays(s.db, known.db, s.visits[k]);
    }
  }

  lemma ExplainGate(p: Setting, db0: Db, s: Walk, busy: map<Url, Time>, e: ChildEntry)
    requires WalkOk(p, db0, s, busy) && IsGated(s.db, e.loc, e.lastmod) && IsNoPage(p, e.loc)
    ensures GateExplained(db0, s.visits, busy, e)
  {
    hide Inv, Fact, NeverBack, IsNoPage;
    assert TargetOk(p, db0, s.db, s.visits, busy, e.loc);
    if SetBy(s.visits, e.loc, s.db.targets[e.loc]) {
      var k :| 0 <= k < |s.visits| && SetsWatermark(s.visits[k], e.loc)
        && s.db.targets[e.loc] == Some(s.visits[k].lastmod);
      assert MovedPast(s.visits, e);
    }
  }

  lemma UngatedBefore(db0: Db, db: Db, e: ChildEntry)
    requires NeverBack(db0, db) && !IsGated(db, e.loc, e.lastmod)
    ensures !IsGated(db0, e.loc, e.lastmod)
  {
  }

  /** How a visit begins: at `s`, with the target in the tables or not. */
  predicate Began(v: Visit, s: Walk, e: ChildEntry, depth: nat) {
    EntryOf(v) == e && v.depth == depth && v.existed == (e.loc in s.db.targets)
  }

  lemma ExistedBefore(db0: Db, s: Walk, v: Visit, e: ChildEntry, depth: nat)
    requires NeverBack(db0, s.db) && Began(v, s, e, depth)
    ensures v.url in db0.targets ==> v.existed
  {
  }

  lemma LandsHere(s: Walk, e: ChildEntry, v: Visit, depth: nat, below: Db, after: Db)
    requires Began(v, s, e, depth) && Grows(Known(s, e).db, below)
    requires after == if v.committed then AfterAdvance(below, e.loc, e.lastmod) else below
    ensures HasLanded(after, v)
  {
    if after.fuel > 0 {
      assert Known(s, e).db.fuel > 0;
      assert e.loc in Known(s, e).db.targets;
      assert e.loc in below.targets;
    }
  }

  /** A visit that looks at no document below ends as it may. */
  lemma EndsHere(p: Setting, db0: Db, s: Walk, e: ChildEntry, depth: nat, busy: map<Url, Time>, b: Walk, v: Visit)
    requires WalkOk(p, db0, s, busy) && Began(v, s, e, depth) && p.isInOrigin(e.loc) && !v.committed
    requires b == Known(s, e).(counts := b.counts, visits := s.visits + [v])
    requires !v.end.Expanded? && EndFact(p, db0, v) && (v.end.Gated? ==> IsGated(s.db, e.loc, e.lastmod))
    ensures WalkOk(p, db0, b, busy)
  {
    hide Inv, EndFact, NeverBack, WalkOk, Grows, TargetOk;
    var known := Known(s, e);
    var with := BusyWith(s, known, e, busy);
    Enter(p, db0, s, e, busy);
    assert !v.end.OutOfOrigin? by { InOriginEnds(p, db0, v); }
    NewFact(p, db0, s, e, depth, busy, b, v);
    Exit(p, db0, known, b, v, with, busy);
  }

  lemma InOriginEnds(p: Setting, db0: Db, v: Visit)
    requires EndFact(p, db0, v) && p.isInOrigin(v.url)
    ensures !v.end.OutOfOrigin?
  {
  }

  lemma NewFact(p: Setting, db0: Db, s: Walk, e: ChildEntry, depth: nat, busy: map<Url, Time>, b: Walk, v: Visit)
    requires WalkOk(p, db0, s, busy) && Began(v, s, e, depth) && !v.committed && !v.end.Expanded? && EndFact(p, db0, v)
    requires b.visits == s.visits + [v] && b.db == Known(s, e).db
    requires v.end.Gated? ==> IsGated(s.db, e.loc, e.lastmod)
    ensures Fact(p, db0, b.db, b.visits, busy, |s.visits|)
  {
    hide Inv, EndFact, NeverBack, WalkOk, TargetOk;
    GrowsSelf(b.db);
    LandsHere(s, e, v, depth, b.db, b.db);
    if v.end.Gated? && IsNoPage(p, v.url) {
      ExplainGate(p, db0, s, busy, e);
      GateStays(db0, s.visits, v, busy, busy, e);
    }
  }

  /** A visit to a URL set. */
  lemma UrlSetOk(p: Setting, db0: Db, s: Walk, e: ChildEntry, depth: nat, busy: map<Url, Time>, fetched: Walk, v: Visit,
                 items: seq<Item>)
    requires WalkOk(p, db0, s, busy) && Began(v, s, e, depth) && EndFact(p, db0, v) && v.end.Expanded? && !v.committed
    requires fetched == Known(s, e).(counts := fetched.counts)
    requires p.fetch(fetched.counts.fetchesUsed, e.loc) == UrlSet(items)
    ensures WalkOk(p, db0, AfterUrlSet(p, fetched, items, v), busy)
  {
    hide Inv, EndFact, NeverBack, WalkOk, TargetOk, AfterUrlSet, AfterItems, IsNoPage, Grows;
    var with := BusyWith(s, Known(s, e), e, busy);
    Enter(p, db0, s, e, busy);
    WalkOkInv(p, db0, Known(s, e), with);
    var read := Known(s, e).(db := AfterItems(p, fetched.db, items));
    ItemsKeep(p, fetched.db, items);
    ItemsLeaveOthers(p, fetched.db, items, fetched.counts.fetchesUsed, e.loc);
    Between(p, db0, Known(s, e), read, with);
    var after := AfterUrlSet(p, fetched, items, v);
    UrlSetDb(p, fetched, items, v);
    var w := after.visits[|s.visits|];
    SameEnd(p, db0, v, w);
    LandsHere(s, e, w, depth, read.db, after.db);
    NothingBelow(p, after.visits, |s.visits|, e.loc, fetched.counts.fetchesUsed);
    Exit(p, db0, read, after, w, with, busy);
  }

  lemma WalkOkInv(p: Setting, db0: Db, s: Walk, busy: map<Url, Time>)
    requires WalkOk(p, db0, s, busy)
    ensures Inv(s.db) && NeverBack(db0, s.db)
  {
  }

  lemma SameEnd(p: Setting, db0: Db, v: Visit, w: Visit)
    requires EndFact(p, db0, v) && w == v.(cut := w.cut, committed := w.committed)
    ensures EndFact(p, db0, w)
  {
  }

  lemma ItemsLeaveOthers(p: Setting, db: Db, items: seq<Item>, n: nat, loc: Url)
    requires Inv(db) && p.fetch(n, loc) == UrlSet(items)
    ensures forall u :: IsNoPage(p, u) && u in AfterItems(p, db, items).targets ==>
      u in db.targets && AfterItems(p, db, items).targets[u] == db.targets[u]
  {
    hide Inv, AfterItems;
    forall u | IsNoPage(p, u) && u in AfterItems(p, db, items).targets
      ensures u in db.targets && AfterItems(p, db, items).targets[u] == db.targets[u]
    {
      ItemsExplain(p, db, items, u);
      if item :| IsAmong(items, item, u, AfterItems(p, db, items).targets[u]) {
        assert p.fetch(n, loc).UrlSet? && item in p.fetch(n, loc).items;
      }
    }
  }

  lemma NothingBelow(p: Setting, visits: seq<Visit>, k: int, loc: Url, n: nat)
    requires 0 <= k < |visits| && visits[k].url == loc && p.fetch(n, loc).UrlSet?
    ensures ExpansionFact(p, visits, k)
  {
    if IsSteady(p) {
      assert p.fetch(0, loc) == p.fetch(n, loc);
      assert Listed(p, loc) == [] && EligibleEntries(p, []) == [] && SortByLastmod([]) == [];
    }
  }

  /** The visits from `from` on contain one to each of the entries, at this depth. */
  ghost predicate AllVisited(visits: seq<Visit>, from: nat, entries: seq<ChildEntry>, depth: nat) {
    forall e :: e in entries ==> IsVisited(visits, from, |visits|, e, depth)
  }

  /** A visit to an index that is expanded. */
  lemma IndexVisitOk(p: Setting, db0: Db, s: Walk, e: ChildEntry, depth: nat, busy: map<Url, Time>, fetched: Walk,
                     v: Visit, items: seq<Item>, below: Walk, after: Walk)
    requires WalkOk(p, db0, s, busy) && Began(v, s, e, depth) && EndFact(p, db0, v) && v.end.Expanded?
    requires v.first == |s.visits| && fetched == Known(s, e).(counts := fetched.counts)
    requires p.fetch(fetched.counts.fetchesUsed, e.loc) == SitemapIndex(items)
    requires WalkOk(p, db0, below, BusyWith(s, Known(s, e), e, busy)) && fetched.visits <= below.visits
    requires Grows(fetched.db, below.db) && AllVisited(below.visits, |s.visits|, Kept(p, items), depth + 1)
    requires after.visits == below.visits + [v]
    requires after.db == if v.committed then AfterAdvance(below.db, e.loc, e.lastmod) else below.db
    ensures WalkOk(p, db0, after, busy)
  {
    hide Inv, EndFact, NeverBack, WalkOk, TargetOk, Kept, Grows, AfterAdvance;
    var with := BusyWith(s, Known(s, e), e, busy);
    Enter(p, db0, s, e, busy);
    InOriginWhenExpanded(p, db0, v);
    LandsHere(s, e, v, depth, below.db, after.db);
    BelowIsVisited(p, below.visits, after.visits, v, items, fetched.counts.fetchesUsed, depth);
    assert Fact(p, db0, after.db, after.visits, busy, |below.visits|);
    hide Fact;
    Exit(p, db0, below, after, v, with, busy);
  }

  lemma InOriginWhenExpanded(p: Setting, db0: Db, v: Visit)
    requires EndFact(p, db0, v) && v.end.Expanded?
    ensures !v.end.OutOfOrigin?
  {
  }

  lemma BelowIsVisited(p: Setting, below: seq<Visit>, after: seq<Visit>, v: Visit, items: seq<Item>, n: nat, depth: nat)
    requires p.fetch(n, v.url) == SitemapIndex(items) && v.depth == depth && v.first <= |below|
    requires AllVisited(below, v.first, Kept(p, items), depth + 1) && after == below + [v]
    ensures ExpansionFact(p, after, |below|)
  {
    hide Kept;
    if IsSteady(p) {
      assert p.fetch(0, v.url) == p.fetch(n, v.url);
      assert Listed(p, v.url) == items;
      forall c | c in Kept(p, items) ensures IsVisited(after, v.first, |below|, c, depth + 1) {
        VisitedStays(below, after, v.first, |below|, c, depth + 1);
      }
    }
  }

  lemma ChildOk(p: Setting, db0: Db, s: Walk, e: ChildEntry, depth: nat, busy: map<Url, Time>)
    requires WalkOk(p, db0, s, busy)
    ensures WalkOk(p, db0, Child(p, s, e, depth), busy)
    decreases Rank(p, depth), 0, 1
  {
    hide WalkOk, Index, AfterUrlSet, Surplus, AfterUpsert, AfterAdvance, TruncationTotal, IsNoPage, NeverBack, Inv;
    hide Kept, Grows;
    WalkOkInv(p, db0, s, busy);
    var v := Visit(e.loc, e.lastmod, depth, e.loc in s.db.targets, OutOfOrigin, 0, false, |s.visits|);
    var after := Child(p, s, e, depth);
    ExistedBefore(db0, s, v, e, depth);
    if !p.isInOrigin(e.loc) {
      OutsideOk(p, db0, s, e, depth, busy, after, v);
    } else if p.check.isBaseline {
      EndsHere(p, db0, s, e, depth, busy, after, v.(end := BaselineOnly));
    } else if IsGated(s.db, e.loc, e.lastmod) {
      EndsHere(p, db0, s, e, depth, busy, after, v.(end := Gated));
    } else {
      UngatedBefore(db0, s.db, e);
      if !p.isFetchAllowed(e.loc) {
        EndsHere(p, db0, s, e, depth, busy, after, v.(end := Disallowed));
      } else if s.counts.fetchesUsed >= p.maxFetches {
        EndsHere(p, db0, s, e, depth, busy, after, v.(end := OverBudget, cut := 1));
      } else {
        var fetched := Known(s, e).(counts := s.counts.(fetchesUsed := s.counts.fetchesUsed + 1));
        FetchedOk(p, db0, s, e, depth, busy, fetched, v);
      }
    }
  }

  lemma OutsideOk(p: Setting, db0: Db, s: Walk, e: ChildEntry, depth: nat, busy: map<Url, Time>, b: Walk, v: Visit)
    requires WalkOk(p, db0, s, busy) && Began(v, s, e, depth) && v.end.OutOfOrigin? && EndFact(p, db0, v)
    requires b.visits == s.visits + [v] && b.db == s.db
    ensures WalkOk(p, db0, b, busy)
  {
    hide Inv, EndFact, NeverBack, WalkOk, TargetOk;
    Exit(p, db0, s, b, v, busy, busy);
  }

  lemma FetchedOk(p: Setting, db0: Db, s: Walk, e: ChildEntry, depth: nat, busy: map<Url, Time>, fetched: Walk,
                  v: Visit)
    requires WalkOk(p, db0, s, busy) && Began(v, s, e, depth) && !p.check.isBaseline && p.isInOrigin(e.loc)
    requires !IsGated(db0, e.loc, e.lastmod) && (e.loc in db0.targets ==> v.existed)
    requires v == Visit(e.loc, e.lastmod, depth, v.existed, OutOfOrigin, 0, false, |s.visits|)
    requires fetched == Known(s, e).(counts := fetched.counts)
    ensures WalkOk(p, db0, AfterFetch(p, fetched, v, e, depth), busy)
    decreases Rank(p, depth), 0, 0
  {
    hide WalkOk, Index, AfterUrlSet, Surplus, AfterUpsert, AfterAdvance, TruncationTotal, IsNoPage, NeverBack, Inv;
    hide Kept;
    hide Grows;
    var after := AfterFetch(p, fetched, v, e, depth);
    assert IsSteady(p) ==> p.fetch(0, e.loc) == p.fetch(fetched.counts.fetchesUsed, e.loc);
    match p.fetch(fetched.counts.fetchesUsed, e.loc)
    case UrlSet(items) =>
      UrlSetOk(p, db0, s, e, depth, busy, fetched, v.(end := Expanded), items);
    case SitemapIndex(items) =>
      if depth + 1 < p.maxDepth {
        var with := BusyWith(s, Known(s, e), e, busy);
        Enter(p, db0, s, e, busy);
        SameButCounts(p, db0, Known(s, e), fetched, with);
        WalkOkInv(p, db0, fetched, with);
        var below := Index(p, fetched, items, depth + 1);
        IndexOk(p, db0, fetched, items, depth + 1, with);
        IndexKeeps(p, fetched, items, depth + 1);
        OrderedIndex(p, fetched, items, depth + 1);
        IndexVisitOk(p, db0, s, e, depth, busy, fetched, after.visits[|below.visits|], items, below, after);
      } else {
        EndsHere(p, db0, s, e, depth, busy, after, v.(end := TooDeep, cut := 1));
      }
    case _ =>
      EndsHere(p, db0, s, e, depth, busy, after, v.(end := NoDocument));
  }

  lemma SameButCounts(p: Setting, db0: Db, a: Walk, b: Walk, busy: map<Url, Time>)
    requires WalkOk(p, db0, a, busy) && b == a.(counts := b.counts)
    ensures WalkOk(p, db0, b, busy)
  {
    hide Inv, NeverBack, TargetOk, Fact;
    assert forall u :: TargetOk(p, db0, a.db, a.visits, busy, u) ==> TargetOk(p, db0, b.db, b.visits, busy, u);
  }

  lemma OrderedIndex(p: Setting, s: Walk, items: seq<Item>, depth: nat)
    ensures s.visits <= Index(p, s, items, depth).visits
  {
    hide Step;
    IndexSteps(p, s, items, depth);
    StepOrders(p, s, Index(p, s, items, depth), Surplus(p, items));
  }

  lemma OrderedChild(p: Setting, s: Walk, e: ChildEntry, depth: nat)
    ensures s.visits <= Child(p, s, e, depth).visits
  {
    hide Step;
    ChildSteps(p, s, e, depth);
    StepOrders(p, s, Child(p, s, e, depth), 0);
  }

  lemma OrderedChildren(p: Setting, s: Walk, entries: seq<ChildEntry>, depth: nat)
    ensures s.visits <= Children(p, s, entries, depth).visits
  {
    hide Step;
    ChildrenStep(p, s, entries, depth);
    StepOrders(p, s, Children(p, s, entries, depth), 0);
  }

  function Fetched(s: Walk, e: ChildEntry): Walk {
    Known(s, e).(counts := s.counts.(fetchesUsed := s.counts.fetchesUsed + 1))
  }

  /** The call reads an index and goes on below it. */
  predicate GoesBelow(p: Setting, s: Walk, e: ChildEntry, depth: nat) {
    && p.isInOrigin(e.loc) && !p.check.isBaseline && !IsGated(s.db, e.loc, e.lastmod) && p.isFetchAllowed(e.loc)
    && s.counts.fetchesUsed < p.maxFetches && p.fetch(s.counts.fetchesUsed + 1, e.loc).SitemapIndex?
    && depth + 1 < p.maxDepth
  }

  /** Its own entry is the last one, and all others are those of the visits below. */
  lemma ChildShape(p: Setting, s: Walk, e: ChildEntry, depth: nat)
    ensures var after := Child(p, s, e, depth).visits;
      var before := if GoesBelow(p, s, e, depth)
                    then Index(p, Fetched(s, e), p.fetch(s.counts.fetchesUsed + 1, e.loc).items, depth + 1).visits
                    else s.visits;
      |after| == |before| + 1 && after[..|before|] == before && EntryOf(after[|before|]) == e
      && after[|before|].depth == depth
  {
    hide Index, Surplus, AfterUpsert, AfterAdvance, TruncationTotal, Processed, FilteredItems, MissingLastmod, IsGated;
  }

  /** The call itself is the last visit it records. */
  lemma ChildIsVisited(p: Setting, s: Walk, e: ChildEntry, depth: nat)
    ensures var after := Child(p, s, e, depth).visits; IsVisited(after, |s.visits|, |after|, e, depth)
  {
    hide Child, Index, GoesBelow, Fetched;
    ChildShape(p, s, e, depth);
    OrderedChild(p, s, e, depth);
    if GoesBelow(p, s, e, depth) {
      OrderedBelow(p, s, e, depth);
    }
    var after := Child(p, s, e, depth).visits;
    assert EntryOf(after[|after| - 1]) == e && after[|after| - 1].depth == depth;
  }

  lemma OrderedBelow(p: Setting, s: Walk, e: ChildEntry, depth: nat)
    requires GoesBelow(p, s, e, depth)
    ensures s.visits <= Index(p, Fetched(s, e), p.fetch(s.counts.fetchesUsed + 1, e.loc).items, depth + 1).visits
  {
    hide Index;
    OrderedIndex(p, Fetched(s, e), p.fetch(s.counts.fetchesUsed + 1, e.loc).items, depth + 1);
  }

  lemma ChildrenOk(p: Setting, db0: Db, s: Walk, entries: seq<ChildEntry>, depth: nat, busy: map<Url, Time>)
    requires WalkOk(p, db0, s, busy)
    ensures var after := Children(p, s, entries, depth);
      WalkOk(p, db0, after, busy) && AllVisited(after.visits, |s.visits|, entries, depth)
    decreases Rank(p, depth), 1, |entries|
  {
    hide WalkOk, Child, IsVisited;
    if entries != [] {
      var first := Child(p, s, entries[0], depth);
      var rest := entries[1..];
      var after := Children(p, first, rest, depth);
      ChildOk(p, db0, s, entries[0], depth, busy);
      ChildrenOk(p, db0, first, rest, depth, busy);
      ChildIsVisited(p, s, entries[0], depth);
      OrderedChild(p, s, entries[0], depth);
      OrderedChildren(p, first, rest, depth);
      forall e | e in entries ensures IsVisited(after.visits, |s.visits|, |after.visits|, e, depth) {
        if e == entries[0] {
          VisitedStays(first.visits, after.visits, |s.visits|, |first.visits|, e, depth);
          Wider(after.visits, |s.visits|, |first.visits|, |s.visits|, |after.visits|, e, depth);
        } else {
          assert e in rest;
          Wider(after.visits, |first.visits|, |after.visits|, |s.visits|, |after.visits|, e, depth);
        }
      }
    }
  }

  lemma Wider(visits: seq<Visit>, from: nat, to: nat, earlier: nat, later: nat, e: ChildEntry, depth: nat)
    requires IsVisited(visits, from, to, e, depth) && earlier <= from && to <= later <= |visits|
    ensures IsVisited(visits, earlier, later, e, depth)
  {
  }

  lemma IndexOk(p: Setting, db0: Db, s: Walk, items: seq<Item>, depth: nat, busy: map<Url, Time>)
    requires WalkOk(p, db0, s, busy)
    ensures var after := Index(p, s, items, depth);
      WalkOk(p, db0, after, busy) && AllVisited(after.visits, |s.visits|, Kept(p, items), depth)
    decreases Rank(p, depth), 2, 0
  {
    hide WalkOk, Children, Kept, AllVisited, Selected, MissingLastmod, PatternExcluded;
    var counted := s.(counts := IndexCounts(p, s.counts, items));
    SameButCounts(p, db0, s, counted, busy);
    ChildrenOk(p, db0, counted, Kept(p, items), depth, busy);
  }

  lemma CheckOk(p: Setting, db: Db, items: seq<Item>)
    requires Inv(db)
    ensures var w := WholeCheck(p, db, items);
      WalkOk(p, db, w, map[]) && AllVisited(w.visits, 0, Kept(p, items), 0)
  {
    hide Index, Kept, AllVisited;
    var start := Walk(db, NO_COUNTS, []);
    assert WalkOk(p, db, start, map[]);
    hide WalkOk;
    IndexOk(p, db, start, items, 0, map[]);
  }

  // ----- what a check leaves gated

  /**
    After a complete check a target is gated for a lastmod exactly if it was before, or some visit to it at that lastmod
    or a later one committed or was the first to it ever.
  */
  lemma GatedAfterExactly(p: Setting, db: Db, items: seq<Item>, e: ChildEntry)
    requires Inv(db) && WholeCheck(p, db, items).db.fuel > 0 && IsNoPage(p, e.loc)
    ensures var w := WholeCheck(p, db, items);
      IsGated(w.db, e.loc, e.lastmod) <==> IsGated(db, e.loc, e.lastmod) || MovedPast(w.visits, e)
  {
    hide WholeCheck, Inv, IsNoPage, AllVisited;
    var w := WholeCheck(p, db, items);
    CheckOk(p, db, items);
    if IsGated(w.db, e.loc, e.lastmod) {
      ExplainGate(p, db, w, map[], e);
    }
    if MovedPast(w.visits, e) {
      var k :| 0 <= k < |w.visits| && SetsWatermark(w.visits[k], e.loc) && e.lastmod <= w.visits[k].lastmod;
      assert Fact(p, db, w.db, w.visits, map[], k);
    }
  }

  // ----- chains of index documents

  /** Neither gated in `db` nor moved past by one of the visits since. */
  ghost predicate IsStillOpen(db: Db, visits: seq<Visit>, e: ChildEntry) {
    !IsGated(db, e.loc, e.lastmod) && !MovedPast(visits, e)
  }

  ghost predicate IsOpenIndex(p: Setting, db: Db, visits: seq<Visit>, e: ChildEntry) {
    p.isInOrigin(e.loc) && p.isFetchAllowed(e.loc) && IsIndex(p, e.loc) && IsStillOpen(db, visits, e)
  }

  /** From the first index down, through open indexes, each listing the next entry among those that are kept. */
  ghost predicate IsPath(p: Setting, db: Db, visits: seq<Visit>, items: seq<Item>, path: seq<ChildEntry>) {
    && 0 < |path| <= Max(1, p.maxDepth) && path[0] in Kept(p, items)
    && forall i :: 0 <= i < |path| - 1 ==>
         IsOpenIndex(p, db, visits, path[i]) && path[i + 1] in Kept(p, Listed(p, path[i].loc))
  }

  predicate LeadsTo(path: seq<ChildEntry>, e: ChildEntry) {
    |path| > 0 && path[|path| - 1] == e
  }

  ghost predicate HasPath(p: Setting, db: Db, visits: seq<Visit>, items: seq<Item>, e: ChildEntry) {
    exists path :: IsPath(p, db, visits, items, path) && LeadsTo(path, e)
  }

  ghost predicate WasVisited(visits: seq<Visit>, e: ChildEntry) {
    exists j :: 0 <= j < |visits| && EntryOf(visits[j]) == e
  }

  // ----- a visit has a path

  lemma Longer(p: Setting, db: Db, items: seq<Item>, path: seq<ChildEntry>, e: ChildEntry, c: ChildEntry)
    requires IsPath(p, db, [], items, path + [e]) && IsOpenIndex(p, db, [], e) && c in Kept(p, Listed(p, e.loc))
    requires |path| + 2 <= p.maxDepth
    ensures IsPath(p, db, [], items, path + [e] + [c])
  {
    hide IsOpenIndex, Kept, Listed;
    var longer := path + [e] + [c];
    assert longer[0] == (path + [e])[0];
    forall i | 0 <= i < |longer| - 1
      ensures IsOpenIndex(p, db, [], longer[i]) && longer[i + 1] in Kept(p, Listed(p, longer[i].loc))
    {
      if i < |path| {
        assert longer[i] == (path + [e])[i] && longer[i + 1] == (path + [e])[i + 1];
      }
    }
  }

  /** Each visit recorded since then has a path. */
  ghost predicate AllHavePaths(p: Setting, db: Db, items: seq<Item>, visits: seq<Visit>, from: nat) {
    forall k :: from <= k < |visits| ==> HasPath(p, db, [], items, EntryOf(visits[k]))
  }

  lemma PathsCompose(p: Setting, db: Db, items: seq<Item>, a: seq<Visit>, b: seq<Visit>, from: nat)
    requires AllHavePaths(p, db, items, a, from) && a <= b && AllHavePaths(p, db, items, b, |a|)
    ensures AllHavePaths(p, db, items, b, from)
  {
    hide HasPath;
    forall k | from <= k < |b| ensures HasPath(p, db, [], items, EntryOf(b[k])) {
      assert k < |a| ==> b[k] == a[k];
    }
  }

  lemma OneMorePath(p: Setting, db: Db, items: seq<Item>, a: seq<Visit>, b: seq<Visit>, from: nat)
    requires AllHavePaths(p, db, items, a, from) && |b| == |a| + 1 && b[..|a|] == a && from <= |a|
    requires HasPath(p, db, [], items, EntryOf(b[|a|]))
    ensures AllHavePaths(p, db, items, b, from)
  {
    hide HasPath;
    forall k | from <= k < |b| ensures HasPath(p, db, [], items, EntryOf(b[k])) {
      assert k < |a| ==> b[k] == a[k];
    }
  }

  lemma ChildHasPaths(p: Setting, db: Db, s: Walk, e: ChildEntry, items: seq<Item>, path: seq<ChildEntry>)
    requires IsSteady(p) && Inv(s.db) && NeverBack(db, s.db) && IsPath(p, db, [], items, path + [e])
    ensures AllHavePaths(p, db, items, Child(p, s, e, |path|).visits, |s.visits|)
    decreases Rank(p, |path|), 0, 0
  {
    hide Inv, NeverBack, Index, Child, AfterUpsert, IsPath, Kept, Grows;
    var depth := |path|;
    var after := Child(p, s, e, depth);
    assert LeadsTo(path + [e], e) && HasPath(p, db, [], items, e);
    hide HasPath;
    ChildShape(p, s, e, depth);
    if GoesBelow(p, s, e, depth) {
      var known, fetched, listed := Known(s, e), Fetched(s, e), p.fetch(s.counts.fetchesUsed + 1, e.loc).items;
      assert p.fetch(0, e.loc) == p.fetch(s.counts.fetchesUsed + 1, e.loc) && Listed(p, e.loc) == listed;
      UpsertKeeps(s.db, e.loc, if e.loc in s.db.targets then None else Some(Some(e.lastmod)));
      KeptInv(s.db, known.db);
      ForwardStill(db, s.db, known.db);
      UngatedBefore(db, s.db, e);
      NothingPast(e);
      forall c | c in Kept(p, listed) ensures IsPath(p, db, [], items, path + [e] + [c]) {
        Longer(p, db, items, path, e, c);
      }
      IndexHasPaths(p, db, fetched, listed, items, path + [e]);
      OrderedIndex(p, fetched, listed, depth + 1);
      OneMorePath(p, db, items, Index(p, fetched, listed, depth + 1).visits, after.visits, |s.visits|);
    } else {
      OneMorePath(p, db, items, s.visits, after.visits, |s.visits|);
    }
  }

  lemma NothingPast(e: ChildEntry)
    ensures !MovedPast([], e)
  {
  }

  lemma ChildrenHavePaths(p: Setting, db: Db, s: Walk, entries: seq<ChildEntry>, items: seq<Item>,
                          path: seq<ChildEntry>)
    requires IsSteady(p) && Inv(s.db) && NeverBack(db, s.db)
    requires forall e :: e in entries ==> IsPath(p, db, [], items, path + [e])
    ensures AllHavePaths(p, db, items, Children(p, s, entries, |path|).visits, |s.visits|)
    decreases Rank(p, |path|), 1, |entries|
  {
    hide Inv, NeverBack, Child, IsPath, HasPath, Grows;
    if entries != [] {
      var first := Child(p, s, entries[0], |path|);
      var rest := entries[1..];
      ChildHasPaths(p, db, s, entries[0], items, path);
      ChildKeeps(p, s, entries[0], |path|);
      KeptInv(s.db, first.db);
      ForwardStill(db, s.db, first.db);
      assert forall e :: e in rest ==> e in entries;
      ChildrenHavePaths(p, db, first, rest, items, path);
      OrderedChild(p, s, entries[0], |path|);
      OrderedChildren(p, first, rest, |path|);
      PathsCompose(p, db, items, first.visits, Children(p, first, rest, |path|).visits, |s.visits|);
    }
  }

  lemma IndexHasPaths(p: Setting, db: Db, s: Walk, listed: seq<Item>, items: seq<Item>, path: seq<ChildEntry>)
    requires IsSteady(p) && Inv(s.db) && NeverBack(db, s.db)
    requires forall e :: e in Kept(p, listed) ==> IsPath(p, db, [], items, path + [e])
    ensures AllHavePaths(p, db, items, Index(p, s, listed, |path|).visits, |s.visits|)
    decreases Rank(p, |path|), 2, 0
  {
    hide Inv, NeverBack, Children, IsPath, HasPath, Kept, Selected, MissingLastmod, PatternExcluded, AllHavePaths;
    ChildrenHavePaths(p, db, s.(counts := IndexCounts(p, s.counts, listed)), Kept(p, listed), items, path);
  }

  lemma VisitedHasPath(p: Setting, db: Db, items: seq<Item>, e: ChildEntry)
    requires IsSteady(p) && Inv(db) && WasVisited(WholeCheck(p, db, items).visits, e)
    ensures HasPath(p, db, [], items, e)
  {
    hide Inv, Index, HasPath, Kept;
    var start := Walk(db, NO_COUNTS, []);
    forall c | c in Kept(p, items) ensures IsPath(p, db, [], items, [] + [c]) {
      assert [] + [c] == [c];
    }
    IndexHasPaths(p, db, start, items, items, []);
  }

  // ----- a path has a visit

  ghost predicate IsInsideCommit(visits: seq<Visit>, j: int) {
    exists k :: 0 <= k < |visits| && visits[k].committed && visits[k].first <= j <= k
  }

  /** Visited no deeper than `level`, or inside a visit that committed, where no depth limit was hit. */
  ghost predicate IsReached(w: Walk, e: ChildEntry, level: nat) {
    exists j :: 0 <= j < |w.visits| && EntryOf(w.visits[j]) == e
             && (w.visits[j].depth <= level || IsInsideCommit(w.visits, j) || w.counts.depthTruncated == 0)
  }

  /** Where no limit of the whole check was hit, no visit says so. */
  ghost predicate LimitsShow(w: Walk) {
    && VisitsOk(w.visits, 0) && w.counts.fetchBudgetTruncated == 0
    && (forall k :: 0 <= k < |w.visits| ==> !w.visits[k].end.OverBudget?)
    && (w.counts.depthTruncated == 0 ==> forall k :: 0 <= k < |w.visits| ==> !w.visits[k].end.TooDeep?)
  }

  lemma ExpandedReaches(p: Setting, w: Walk, j: nat, c: ChildEntry, level: nat)
    requires j < |w.visits| && ExpansionFact(p, w.visits, j) && IsSteady(p) && w.visits[j].end.Expanded?
    requires VisitsOk(w.visits, 0) && c in Kept(p, Listed(p, w.visits[j].url))
    requires w.visits[j].depth <= level || IsInsideCommit(w.visits, j) || w.counts.depthTruncated == 0
    ensures IsReached(w, c, level + 1)
  {
    hide Kept, Listed, EndOk, NothingCut;
    var v := w.visits[j];
    assert IsVisited(w.visits, v.first, j, c, v.depth + 1);
    var m :| 0 <= v.first <= m < j && EntryOf(w.visits[m]) == c && w.visits[m].depth == v.depth + 1;
    if IsInsideCommit(w.visits, j) {
      var k :| 0 <= k < |w.visits| && w.visits[k].committed && w.visits[k].first <= j <= k;
      assert VisitOk(w.visits, k);
      assert w.visits[k].first <= m <= k;
    }
  }

  /** Inside a commit no limit was hit. */
  lemma NotTooDeep(w: Walk, j: nat)
    requires VisitsOk(w.visits, 0) && j < |w.visits| && IsInsideCommit(w.visits, j)
    ensures !w.visits[j].end.TooDeep?
  {
    var k :| 0 <= k < |w.visits| && w.visits[k].committed && w.visits[k].first <= j <= k;
    assert VisitOk(w.visits, k) && VisitOk(w.visits, j);
    assert w.visits[j].cut == 0;
  }

  /**
    An open index that is visited but gated was committed, or met for the first time, by another visit, which read it.
  */
  lemma GatedReaches(p: Setting, db: Db, w: Walk, e: ChildEntry, c: ChildEntry, level: nat)
    requires WalkOk(p, db, w, map[]) && LimitsShow(w) && IsSteady(p) && !p.check.isBaseline
    requires IsOpenIndex(p, db, [], e) && MovedPast(w.visits, e)
    requires w.counts.depthTruncated == 0 || e.loc in db.targets
    requires c in Kept(p, Listed(p, e.loc))
    ensures IsReached(w, c, level + 1)
  {
    hide Inv, NeverBack, TargetOk, ExpansionFact, HasLanded, GateFact, Kept, Listed, IsReached, IsInsideCommit;
    hide IsStillOpen;
    var k :| 0 <= k < |w.visits| && SetsWatermark(w.visits[k], e.loc) && e.lastmod <= w.visits[k].lastmod;
    assert Fact(p, db, w.db, w.visits, map[], k) && VisitOk(w.visits, k);
    if w.visits[k].committed {
      CommitIsInside(w.visits, k);
    }
    assert w.visits[k].end.Expanded?;
    ExpandedReaches(p, w, k, c, level);
  }

  lemma CommitIsInside(visits: seq<Visit>, k: nat)
    requires k < |visits| && visits[k].committed && visits[k].first <= k
    ensures IsInsideCommit(visits, k)
  {
  }

  lemma NextIsReached(p: Setting, db: Db, w: Walk, e: ChildEntry, c: ChildEntry, level: nat)
    requires WalkOk(p, db, w, map[]) && LimitsShow(w) && IsSteady(p) && !p.check.isBaseline
    requires IsOpenIndex(p, db, [], e) && IsNoPage(p, e.loc) && level + 1 < p.maxDepth
    requires w.counts.depthTruncated == 0 || e.loc in db.targets
    requires IsReached(w, e, level) && c in Kept(p, Listed(p, e.loc))
    ensures IsReached(w, c, level + 1)
  {
    hide Inv, NeverBack, TargetOk, ExpansionFact, HasLanded, Kept, Listed, IsInsideCommit, IsNoPage, MovedPast;
    hide VisitsOk;
    var j :| 0 <= j < |w.visits| && EntryOf(w.visits[j]) == e
          && (w.visits[j].depth <= level || IsInsideCommit(w.visits, j) || w.counts.depthTruncated == 0);
    hide IsReached;
    assert Fact(p, db, w.db, w.visits, map[], j);
    if w.visits[j].end.Gated? {
      GatedReaches(p, db, w, e, c, level);
    } else {
      if IsInsideCommit(w.visits, j) {
        NotTooDeep(w, j);
      }
      assert w.visits[j].end.Expanded?;
      ExpandedReaches(p, w, j, c, level);
    }
  }

  lemma {:induction false} PathIsReached(p: Setting, db: Db, items: seq<Item>, w: Walk, path: seq<ChildEntry>, i: nat)
    requires WalkOk(p, db, w, map[]) && LimitsShow(w) && IsSteady(p) && !p.check.isBaseline
    requires IsPath(p, db, [], items, path) && i < |path| && AllVisited(w.visits, 0, Kept(p, items), 0)
    requires forall u :: IsIndex(p, u) ==> IsNoPage(p, u)
    requires w.counts.depthTruncated == 0 || forall u :: IsIndex(p, u) ==> u in db.targets
    ensures IsReached(w, path[i], i)
  {
    hide WalkOk, LimitsShow, IsNoPage, Kept, Listed, IsStillOpen, IsSteady;
    if i == 0 {
      assert IsVisited(w.visits, 0, |w.visits|, path[0], 0);
    } else {
      hide IsReached;
      PathIsReached(p, db, items, w, path, i - 1);
      assert IsOpenIndex(p, db, [], path[i - 1]) && path[i - 1 + 1] in Kept(p, Listed(p, path[i - 1].loc));
      NextIsReached(p, db, w, path[i - 1], path[i], i - 1);
    }
  }

  lemma LimitsOfCheck(p: Setting, db: Db, items: seq<Item>)
    requires WholeCheck(p, db, items).counts.fetchBudgetTruncated == 0
    ensures LimitsShow(WholeCheck(p, db, items))
  {
    hide Index, Surplus, TruncationTotal, VisitsOk;
    IndexSteps(p, Walk(db, NO_COUNTS, []), items, 0);
  }

  /**
    What the results below ask of a check: documents do not change while it runs, no index is itself listed as a page,
    the fetch budget lasted, and the depth did too or every index was known before.
  */
  ghost predicate IsOrderly(p: Setting, db: Db, items: seq<Item>) {
    && Inv(db) && IsSteady(p) && !p.check.isBaseline
    && (forall u :: IsIndex(p, u) ==> IsNoPage(p, u))
    && WholeCheck(p, db, items).counts.fetchBudgetTruncated == 0
    && (WholeCheck(p, db, items).counts.depthTruncated == 0 || forall u :: IsIndex(p, u) ==> u in db.targets)
  }

  /**
    A child is visited in a check exactly if a chain of indexes leads to it that were all open when the check began.
  */
  lemma VisitedExactly(p: Setting, db: Db, items: seq<Item>, e: ChildEntry)
    requires IsOrderly(p, db, items)
    ensures WasVisited(WholeCheck(p, db, items).visits, e) <==> HasPath(p, db, [], items, e)
  {
    hide Inv, WholeCheck, IsSteady, IsNoPage, WalkOk, IsPath, AllVisited, LimitsShow;
    var w := WholeCheck(p, db, items);
    if WasVisited(w.visits, e) {
      VisitedHasPath(p, db, items, e);
    }
    if path :| IsPath(p, db, [], items, path) && LeadsTo(path, e) {
      CheckOk(p, db, items);
      LimitsOfCheck(p, db, items);
      PathIsReached(p, db, items, w, path, |path| - 1);
    }
  }

  // ----- two checks

  lemma RefuelledGate(db: Db, fuel: nat, e: ChildEntry)
    ensures IsGated(db.(fuel := fuel), e.loc, e.lastmod) <==> IsGated(db, e.loc, e.lastmod)
  {
  }

  /** Open for the second check is what was open for the first and not moved past in it. */
  lemma OpenAgain(p: Setting, db: Db, items: seq<Item>, fuel: nat, e: ChildEntry)
    requires Inv(db) && WholeCheck(p, db, items).db.fuel > 0 && IsNoPage(p, e.loc)
    ensures var w := WholeCheck(p, db, items);
      IsStillOpen(w.db.(fuel := fuel), [], e) <==> IsStillOpen(db, w.visits, e)
  {
    hide Inv, WholeCheck, IsNoPage, IsGated;
    var w := WholeCheck(p, db, items);
    GatedAfterExactly(p, db, items, e);
    RefuelledGate(w.db, fuel, e);
    NothingPast(e);
  }

  lemma PathAgain(p: Setting, db: Db, items: seq<Item>, next: Setting, nextItems: seq<Item>, fuel: nat,
                  path: seq<ChildEntry>)
    requires Inv(db) && WholeCheck(p, db, items).db.fuel > 0
    requires forall u :: IsIndex(next, u) ==> IsNoPage(p, u)
    ensures var w := WholeCheck(p, db, items);
      IsPath(next, w.db.(fuel := fuel), [], nextItems, path) <==> IsPath(next, db, w.visits, nextItems, path)
  {
    hide Inv, WholeCheck, IsNoPage, IsStillOpen, Kept, Listed, IsIndex;
    var w := WholeCheck(p, db, items);
    forall i | 0 <= i < |path| && IsIndex(next, path[i].loc)
      ensures IsStillOpen(w.db.(fuel := fuel), [], path[i]) <==> IsStillOpen(db, w.visits, path[i])
    {
      OpenAgain(p, db, items, fuel, path[i]);
    }
  }

  lemma HasPathAgain(p: Setting, db: Db, items: seq<Item>, next: Setting, nextItems: seq<Item>, fuel: nat,
                     e: ChildEntry)
    requires Inv(db) && WholeCheck(p, db, items).db.fuel > 0
    requires forall u :: IsIndex(next, u) ==> IsNoPage(p, u)
    ensures var w := WholeCheck(p, db, items);
      HasPath(next, w.db.(fuel := fuel), [], nextItems, e) <==> HasPath(next, db, w.visits, nextItems, e)
  {
    hide Inv, WholeCheck, IsNoPage, IsPath, IsIndex;
    var w := WholeCheck(p, db, items);
    var after := w.db.(fuel := fuel);
    if path :| IsPath(next, after, [], nextItems, path) && LeadsTo(path, e) {
      PathAgain(p, db, items, next, nextItems, fuel, path);
    }
    if path :| IsPath(next, db, w.visits, nextItems, path) && LeadsTo(path, e) {
      PathAgain(p, db, items, next, nextItems, fuel, path);
    }
  }

  /**
    A complete check, then another: the second visits a child exactly if a chain of indexes leads to it that were open
    before the first, and none of which the first committed, or met for the first time.
  */
  lemma VisitedAgainExactly(p: Setting, db: Db, items: seq<Item>, next: Setting, nextItems: seq<Item>, fuel: nat,
                            e: ChildEntry)
    requires Inv(db) && WholeCheck(p, db, items).db.fuel > 0
    requires IsOrderly(next, WholeCheck(p, db, items).db.(fuel := fuel), nextItems)
    requires forall u :: IsIndex(next, u) ==> IsNoPage(p, u)
    ensures var w := WholeCheck(p, db, items);
      WasVisited(WholeCheck(next, w.db.(fuel := fuel), nextItems).visits, e)
      <==> HasPath(next, db, w.visits, nextItems, e)
  {
    hide Inv, WholeCheck, IsNoPage, HasPath, IsOrderly, WasVisited, IsIndex;
    VisitedExactly(next, WholeCheck(p, db, items).db.(fuel := fuel), nextItems, e);
    HasPathAgain(p, db, items, next, nextItems, fuel, e);
  }

  /** The child gets past its own gate in the check, so that it is fetched unless robots or a limit forbid it. */
  ghost predicate IsTried(visits: seq<Visit>, url: Url) {
    exists j :: 0 <= j < |visits| && visits[j].url == url && IsPastGate(visits[j].end)
  }

  lemma TriedExactly(p: Setting, db: Db, items: seq<Item>, url: Url)
    requires IsOrderly(p, db, items) && p.isInOrigin(url) && IsNoPage(p, url)
    ensures IsTried(WholeCheck(p, db, items).visits, url)
       <==> exists t :: HasPath(p, db, [], items, ChildEntry(url, t)) && IsStillOpen(db, [], ChildEntry(url, t))
  {
    hide Inv, WholeCheck, IsNoPage, HasPath, IsSteady, AllVisited, TargetOk, NeverBack, ExpansionFact, HasLanded;
    hide VisitsOk;
    var w := WholeCheck(p, db, items);
    CheckOk(p, db, items);
    LimitsOfCheck(p, db, items);
    if j :| 0 <= j < |w.visits| && w.visits[j].url == url && IsPastGate(w.visits[j].end) {
      var e := EntryOf(w.visits[j]);
      assert Fact(p, db, w.db, w.visits, map[], j);
      VisitedExactly(p, db, items, e);
      NothingPast(e);
      assert e == ChildEntry(url, e.lastmod);
    }
    if t :| HasPath(p, db, [], items, ChildEntry(url, t)) && IsStillOpen(db, [], ChildEntry(url, t)) {
      var e := ChildEntry(url, t);
      VisitedExactly(p, db, items, e);
      var j :| 0 <= j < |w.visits| && EntryOf(w.visits[j]) == e;
      assert Fact(p, db, w.db, w.visits, map[], j);
      if w.visits[j].end.Gated? {
        var k :| 0 <= k < |w.visits| && SetsWatermark(w.visits[k], url) && t <= w.visits[k].lastmod;
        assert Fact(p, db, w.db, w.visits, map[], k);
        CommitIsExpanded(w.visits, k);
      }
    }
  }

  lemma CommitIsExpanded(visits: seq<Visit>, k: nat)
    requires VisitsOk(visits, 0) && k < |visits|
    ensures visits[k].committed ==> visits[k].end.Expanded?
  {
    assert VisitOk(visits, k);
  }

  /**
    So for a child whose visit ended early, or any other: the next check tries it again exactly if it lists the child at
    a lastmod to which the first check did not move its watermark, below indexes that the first check left open too.
  */
  lemma RetriedExactly(p: Setting, db: Db, items: seq<Item>, next: Setting, nextItems: seq<Item>, fuel: nat, url: Url)
    requires Inv(db) && WholeCheck(p, db, items).db.fuel > 0
    requires IsOrderly(next, WholeCheck(p, db, items).db.(fuel := fuel), nextItems)
    requires forall u :: IsIndex(next, u) || u == url ==> IsNoPage(p, u)
    requires next.isInOrigin(url) && IsNoPage(next, url)
    ensures var w := WholeCheck(p, db, items);
      IsTried(WholeCheck(next, w.db.(fuel := fuel), nextItems).visits, url)
      <==> exists t :: HasPath(next, db, w.visits, nextItems, ChildEntry(url, t))
                       && IsStillOpen(db, w.visits, ChildEntry(url, t))
  {
    hide Inv, WholeCheck, IsNoPage, HasPath, IsOrderly, IsTried, IsIndex, IsStillOpen;
    var w := WholeCheck(p, db, items);
    var after := w.db.(fuel := fuel);
    TriedExactly(next, after, nextItems, url);
    forall t ensures
      && (HasPath(next, after, [], nextItems, ChildEntry(url, t))
        <==> HasPath(next, db, w.visits, nextItems, ChildEntry(url, t)))
      && (IsStillOpen(after, [], ChildEntry(url, t)) <==> IsStillOpen(db, w.visits, ChildEntry(url, t)))
    {
      HasPathAgain(p, db, items, next, nextItems, fuel, ChildEntry(url, t));
      OpenAgain(p, db, items, fuel, ChildEntry(url, t));
    }
  }

  /**
    In particular a child whose only visit ended early, at a lastmod the next check still lists it at: it is tried again
    exactly if it was registered before and a chain of indexes leads to it of which none committed.
  */
  lemma EarlyEndIsRetriedExactly(p: Setting, db: Db, items: seq<Item>, next: Setting, nextItems: seq<Item>, fuel: nat,
                                 k: nat)
    requires Inv(db) && WholeCheck(p, db, items).db.fuel > 0
    requires IsOrderly(next, WholeCheck(p, db, items).db.(fuel := fuel), nextItems)
    requires k < |WholeCheck(p, db, items).visits|
    requires var v := WholeCheck(p, db, items).visits[k];
      && IsPastGate(v.end) && !v.end.Expanded? && next.isInOrigin(v.url) && IsNoPage(next, v.url)
      && forall u :: IsIndex(next, u) || u == v.url ==> IsNoPage(p, u)
    requires var visits := WholeCheck(p, db, items).visits;
      && (forall j :: 0 <= j < |visits| && visits[j].url == visits[k].url ==> j == k)
      && forall t :: HasPath(next, db, visits, nextItems, ChildEntry(visits[k].url, t)) ==> t == visits[k].lastmod
    ensures var w := WholeCheck(p, db, items);
      IsTried(WholeCheck(next, w.db.(fuel := fuel), nextItems).visits, w.visits[k].url)
      <==> w.visits[k].existed && HasPath(next, db, w.visits, nextItems, EntryOf(w.visits[k]))
  {
    hide Inv, WholeCheck, IsNoPage, HasPath, IsOrderly, IsTried, IsIndex, WalkOk, AllVisited;
    var w := WholeCheck(p, db, items);
    RetriedExactly(p, db, items, next, nextItems, fuel, w.visits[k].url);
    OnlyVisitSets(p, db, items, k);
  }

  lemma OnlyVisitSets(p: Setting, db: Db, items: seq<Item>, k: nat)
    requires Inv(db) && k < |WholeCheck(p, db, items).visits|
    requires var visits := WholeCheck(p, db, items).visits;
      && IsPastGate(visits[k].end) && !visits[k].end.Expanded?
      && forall j :: 0 <= j < |visits| && visits[j].url == visits[k].url ==> j == k
    ensures var visits := WholeCheck(p, db, items).visits;
      IsStillOpen(db, visits, EntryOf(visits[k])) <==> visits[k].existed
  {
    hide Inv, WholeCheck, AllVisited, TargetOk, NeverBack, ExpansionFact, HasLanded, GateFact;
    var w := WholeCheck(p, db, items);
    CheckOk(p, db, items);
    assert Fact(p, db, w.db, w.visits, map[], k);
    EarlyEndsCut(p, db, items, k);
    if !w.visits[k].existed {
      assert SetsWatermark(w.visits[k], w.visits[k].url);
    }
  }

  /** A new child whose first fetch fails: the next check passes it over without fetching. */
  lemma NewChildIsNotRetried(p: Setting, depth: nat)
    requires p.isInOrigin("u") && !p.check.isBaseline && p.isFetchAllowed("u") && p.maxFetches > 0
    requires p.fetch(1, "u") == FetchFailed
    ensures var first := Child(p, Walk(EMPTY.(fuel := 9), NO_COUNTS, []), ChildEntry("u", 5), depth);
      var second := Child(p, Walk(first.db, NO_COUNTS, []), ChildEntry("u", 5), depth);
      first.counts.fetchesUsed == 1 && second.counts.fetchesUsed == 0 && second.db == first.db
  {
    hide Index, AfterUrlSet;
  }

  function OneItem(url: Url): seq<Item> {
    [Item(Some(url), url, Some(5))]
  }

  lemma OneIsKept(p: Setting, url: Url)
    requires p.cutoff <= 5 && p.isIncluded(url)
    ensures Kept(p, OneItem(url)) == [ChildEntry(url, 5)] && Surplus(p, OneItem(url)) == 0
    ensures IndexCounts(p, NO_COUNTS, OneItem(url)) == NO_COUNTS
    ensures IndexCounts(p, NO_COUNTS.(fetchesUsed := 1), OneItem(url)) == NO_COUNTS.(fetchesUsed := 1)
  {
    var items := OneItem(url);
    assert items[1..] == [] && EligibleEntries(p, []) == [];
    assert EligibleEntries(p, items) == [ChildEntry(url, 5)];
    assert [ChildEntry(url, 5)][1..] == [] && SortByLastmod([]) == [];
    assert SortByLastmod([ChildEntry(url, 5)]) == [ChildEntry(url, 5)];
    assert MissingLastmod([]) == 0 && PatternExcluded(p, []) == 0;
  }

  /**
    Known index "i" lists known child "c"; the fetch of "c" fails, "i" commits all the same, and the next check fetches
    nothing: "c" waits until its index has a newer lastmod.
  */
  lemma FailureBelowIsCommittedOver(p: Setting, db: Db, fuel: nat)
    requires !p.check.isBaseline && p.cutoff <= 5 && p.maxDepth >= 2 && p.maxFetches >= 2
    requires p.isInOrigin("i") && p.isFetchAllowed("i") && p.isIncluded("i")
    requires p.isInOrigin("c") && p.isFetchAllowed("c") && p.isIncluded("c")
    requires p.fetch(1, "i") == SitemapIndex(OneItem("c")) && p.fetch(2, "c") == FetchFailed
    requires db == EMPTY.(targets := map["i" := Some(1), "c" := Some(1)], fuel := 9)
    ensures var first := WholeCheck(p, db, OneItem("i"));
      var second := WholeCheck(p, first.db.(fuel := fuel), OneItem("i"));
      && first.counts.fetchesUsed == 2 && TruncationTotal(first.counts) == 0
      && first.db.targets == map["i" := Some(5), "c" := Some(1)]
      && second.counts.fetchesUsed == 0 && second.db == first.db.(fuel := fuel)
  {
    hide Kept, Surplus, Index, AfterUrlSet, IndexCounts, TruncationTotal;
    OneIsKept(p, "i");
    OneIsKept(p, "c");
    var v := Visit("c", 5, 1, true, NoDocument, 0, false, 0);
    var one := NO_COUNTS.(fetchesUsed := 1);
    var start, asked := Walk(db, NO_COUNTS, []), Walk(db, one, []);
    var below := Walk(db, NO_COUNTS.(fetchesUsed := 2), [v]);
    assert Child(p, asked, ChildEntry("c", 5), 1) == below;
    OneChild(p, asked, OneItem("c"), ChildEntry("c", 5), 1);
    assert Index(p, asked, OneItem("c"), 1) == below;
    NothingTruncated(2);
    NothingTruncated(1);
    var first := Child(p, start, ChildEntry("i", 5), 0);
    assert first == Committed(below, Visit("i", 5, 0, true, Expanded, 0, false, 0));
    OneChild(p, start, OneItem("i"), ChildEntry("i", 5), 0);
    assert first.db.targets == map["i" := Some(5), "c" := Some(1)];
    var again := Walk(first.db.(fuel := fuel), NO_COUNTS, []);
    OneChild(p, again, OneItem("i"), ChildEntry("i", 5), 0);
    assert IsGated(again.db, "i", 5);
  }

  lemma NothingTruncated(n: nat)
    ensures TruncationTotal(NO_COUNTS.(fetchesUsed := n)) == 0
  {
  }

  lemma OneChild(p: Setting, s: Walk, items: seq<Item>, e: ChildEntry, depth: nat)
    requires Kept(p, items) == [e] && IndexCounts(p, s.counts, items) == s.counts
    ensures Index(p, s, items, depth) == Child(p, s, e, depth)
  {
    hide Child, IndexCounts, Kept;
    assert [e][1..] == [] && Children(p, Child(p, s, e, depth), [], depth) == Child(p, s, e, depth);
  }
}
