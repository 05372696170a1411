/**
  The traversal of a sitemap index and the sitemaps below it (src/pipeline/sitemapTraversal.ts), over any web of
  documents, cyclic ones included. A child's watermark is committed after its expansion; `visits` records every call of
  traverseChild in the order they return, so that the calls inside one are the entries just before it.
*/
module SitemapTraversal {
  import opened Common
  import opened Database
  import opened Feed

  const MAX_CHILD_SITEMAPS := 20
  const DEFAULT_MAX_TRAVERSAL_DEPTH := 3
  const MAX_TRAVERSAL_FETCHES_PER_CHECK := 50

  /** What fetching a child and parsing its body comes to. */
  datatype Document =
    | FetchFailed
    | NotModified
    | Unparsable
    | UrlSet(items: seq<Item>)
    | SitemapIndex(items: seq<Item>)

  /** The check, its limits, and the outside world; the `n`-th fetch of the check may answer differently each time. */
  datatype Setting = Setting(
    check: Check,
    cutoff: Time,
    maxDepth: int,
    maxFetches: int,
    isInOrigin: Url -> bool,
    isFetchAllowed: Url -> bool,
    isIncluded: Url -> bool,
    fetch: (nat, Url) -> Document)

  datatype Counts = Counts(
    childrenTruncated: nat,
    depthTruncated: nat,
    originBlocked: nat,
    missingLastmodSkipped: nat,
    feedItemsTruncated: nat,
    fetchBudgetTruncated: nat,
    fetchesUsed: nat,
    patternExcluded: nat)

  const NO_COUNTS := Counts(0, 0, 0, 0, 0, 0, 0, 0)

  function TruncationTotal(c: Counts): nat {
    c.childrenTruncated + c.depthTruncated + c.feedItemsTruncated + c.fetchBudgetTruncated
  }

  // ----- choosing what to process

  function FilteredItems(items: seq<Item>, cutoff: Time): seq<Item> {
    if items == [] then []
    else
      (if items[0].url.Some? && items[0].updatedAt.Some? && items[0].updatedAt.value >= cutoff then [items[0]] else [])
      + FilteredItems(items[1..], cutoff)
  }

  function MissingLastmod(items: seq<Item>): nat {
    if items == [] then 0
    else (if items[0].url.Some? && items[0].updatedAt == None then 1 else 0) + MissingLastmod(items[1..])
  }

  lemma FilteredHead(item: Item, rest: seq<Item>, cutoff: Time)
    ensures FilteredItems([item] + rest, cutoff) == FilteredItems([item], cutoff) + FilteredItems(rest, cutoff)
    ensures MissingLastmod([item] + rest) == MissingLastmod([item]) + MissingLastmod(rest)
  {
    assert ([item] + rest)[1..] == rest && [item][1..] == [] && FilteredItems([], cutoff) == [];
  }

  lemma NothingFiltered(cutoff: Time)
    ensures FilteredItems([], cutoff) == [] && MissingLastmod([]) == 0
  {
  }

  /** The filter takes each item by itself and keeps the order. */
  lemma {:induction false} FilteredConcat(a: seq<Item>, b: seq<Item>, cutoff: Time)
    ensures FilteredItems(a + b, cutoff) == FilteredItems(a, cutoff) + FilteredItems(b, cutoff)
    ensures MissingLastmod(a + b) == MissingLastmod(a) + MissingLastmod(b)
  {
    hide FilteredItems, MissingLastmod;
    if a == [] {
      NothingFiltered(cutoff);
      assert a + b == b && [] + FilteredItems(b, cutoff) == FilteredItems(b, cutoff);
    } else {
      FilteredConcat(a[1..], b, cutoff);
      FilteredHead(a[0], a[1..], cutoff);
      FilteredHead(a[0], a[1..] + b, cutoff);
      assert [a[0]] + a[1..] == a && [a[0]] + (a[1..] + b) == a + b;
      Associative(FilteredItems([a[0]], cutoff), FilteredItems(a[1..], cutoff), FilteredItems(b, cutoff));
    }
  }

  /** It keeps an item, as often as it is listed, exactly if its lastmod is known and not before the cutoff. */
  lemma {:induction false} FilteredExactly(items: seq<Item>, cutoff: Time, item: Item)
    ensures item in FilteredItems(items, cutoff) <==>
      item in items && item.url.Some? && item.updatedAt.Some? && item.updatedAt.value >= cutoff
    ensures item in FilteredItems(items, cutoff) ==>
      multiset(FilteredItems(items, cutoff))[item] == multiset(items)[item]
  {
    if items != [] {
      FilteredExactly(items[1..], cutoff, item);
      assert items == [items[0]] + items[1..];
    }
  }

  lemma MissingOne(item: Item)
    ensures MissingLastmod([item]) == if item.url.Some? && item.updatedAt == None then 1 else 0
  {
    assert [item][1..] == [] && MissingLastmod([]) == 0;
  }

  lemma FilterStep(items: seq<Item>, i: nat, cutoff: Time, kept: seq<Item>)
    requires i < |items|
    ensures var wanted := items[i].url.Some? && items[i].updatedAt.Some? && items[i].updatedAt.value >= cutoff;
      kept + FilteredItems(items[i..], cutoff)
      == (if wanted then kept + [items[i]] else kept) + FilteredItems(items[i + 1..], cutoff)
    ensures MissingLastmod(items[i..])
         == MissingLastmod(items[i + 1..]) + if items[i].url.Some? && items[i].updatedAt == None then 1 else 0
  {
    assert items[i..][0] == items[i] && items[i..][1..] == items[i + 1..];
    var rest := FilteredItems(items[i + 1..], cutoff);
    Associative(kept, [items[i]], rest);
    assert [] + rest == rest;
  }

  method FilterItemsForTraversal(items: seq<Item>, cutoff: Time, counts: Counts)
    returns (kept: seq<Item>, after: Counts)
    ensures kept == FilteredItems(items, cutoff)
    ensures forall item :: item in kept <==>
      item in items && item.url.Some? && item.updatedAt.Some? && item.updatedAt.value >= cutoff
    ensures after == counts.(missingLastmodSkipped := counts.missingLastmodSkipped + MissingLastmod(items))
  {
    kept, after := [], counts;
    assert items[0..] == items;
    for i := 0 to |items|
      invariant kept + FilteredItems(items[i..], cutoff) == FilteredItems(items, cutoff)
      invariant after == counts.(missingLastmodSkipped := after.missingLastmodSkipped)
      invariant after.missingLastmodSkipped + MissingLastmod(items[i..])
             == counts.missingLastmodSkipped + MissingLastmod(items)
    {
      hide FilteredItems, MissingLastmod;
      FilterStep(items, i, cutoff, kept);
      if items[i].url == None { continue; }
      if items[i].updatedAt == None {
        after := after.(missingLastmodSkipped := after.missingLastmodSkipped + 1);
        continue;
      }
      if items[i].updatedAt.value < cutoff { continue; }
      kept := kept + [items[i]];
    }
    assert items[|items|..] == [] && FilteredItems([], cutoff) == [] && MissingLastmod([]) == 0;
    hide FilteredItems, MissingLastmod;
    forall item ensures item in kept <==>
      item in items && item.url.Some? && item.updatedAt.Some? && item.updatedAt.value >= cutoff
    {
      FilteredExactly(items, cutoff, item);
    }
  }

  datatype ChildEntry = ChildEntry(loc: Url, lastmod: Time)

  predicate IsEligible(p: Setting, item: Item) {
    item.url.Some? && item.updatedAt.Some? && item.updatedAt.value >= p.cutoff && p.isIncluded(item.url.value)
  }

  function EligibleEntries(p: Setting, items: seq<Item>): seq<ChildEntry> {
    if items == [] then []
    else
      (if IsEligible(p, items[0]) then [ChildEntry(items[0].url.value, items[0].updatedAt.value)] else [])
      + EligibleEntries(p, items[1..])
  }

  function PatternExcluded(p: Setting, items: seq<Item>): nat {
    if items == [] then 0
    else
      (if items[0].url.Some? && items[0].updatedAt.Some? && items[0].updatedAt.value >= p.cutoff
          && !p.isIncluded(items[0].url.value) then 1 else 0)
      + PatternExcluded(p, items[1..])
  }

  lemma EligibleHead(p: Setting, item: Item, rest: seq<Item>)
    ensures EligibleEntries(p, [item] + rest) == EligibleEntries(p, [item]) + EligibleEntries(p, rest)
    ensures PatternExcluded(p, [item] + rest) == PatternExcluded(p, [item]) + PatternExcluded(p, rest)
  {
    assert ([item] + rest)[1..] == rest && [item][1..] == [] && EligibleEntries(p, []) == [];
  }

  lemma NothingEligible(p: Setting)
    ensures EligibleEntries(p, []) == [] && PatternExcluded(p, []) == 0
  {
  }

  lemma {:induction false} EligibleConcat(p: Setting, a: seq<Item>, b: seq<Item>)
    ensures EligibleEntries(p, a + b) == EligibleEntries(p, a) + EligibleEntries(p, b)
    ensures PatternExcluded(p, a + b) == PatternExcluded(p, a) + PatternExcluded(p, b)
  {
    hide EligibleEntries, PatternExcluded;
    if a == [] {
      NothingEligible(p);
      assert a + b == b && [] + EligibleEntries(p, b) == EligibleEntries(p, b);
    } else {
      EligibleConcat(p, a[1..], b);
      EligibleHead(p, a[0], a[1..]);
      EligibleHead(p, a[0], a[1..] + b);
      assert [a[0]] + a[1..] == a && [a[0]] + (a[1..] + b) == a + b;
      Associative(EligibleEntries(p, [a[0]]), EligibleEntries(p, a[1..]), EligibleEntries(p, b));
    }
  }

  /** A child is eligible exactly if its lastmod is known and not before the cutoff and its URL is included. */
  lemma EligibleOne(p: Setting, item: Item)
    ensures var isRecent := item.url.Some? && item.updatedAt.Some? && item.updatedAt.value >= p.cutoff;
      && EligibleEntries(p, [item])
         == (if isRecent && p.isIncluded(item.url.value)
             then [ChildEntry(item.url.value, item.updatedAt.value)] else [])
      && PatternExcluded(p, [item]) == if isRecent && !p.isIncluded(item.url.value) then 1 else 0
  {
    assert [item][1..] == [] && EligibleEntries(p, []) == [] && PatternExcluded(p, []) == 0;
  }

  /** So the entries a selection is made from are those that some listed item stands for. */
  lemma {:induction false} EligibleExactly(p: Setting, items: seq<Item>, e: ChildEntry)
    ensures e in EligibleEntries(p, items) <==>
      && e.lastmod >= p.cutoff && p.isIncluded(e.loc)
      && exists item :: item in items && item.url == Some(e.loc) && item.updatedAt == Some(e.lastmod)
  {
    if items != [] {
      var rest := items[1..];
      EligibleExactly(p, rest, e);
      assert items == [items[0]] + rest;
      if items[0].url == Some(e.loc) && items[0].updatedAt == Some(e.lastmod) {
        assert items[0] in items;
      } else if item :| item in items && item.url == Some(e.loc) && item.updatedAt == Some(e.lastmod) {
        assert item in rest;
      }
    }
  }

  function InsertByLastmod(e: ChildEntry, sorted: seq<ChildEntry>): seq<ChildEntry> {
    if sorted == [] || sorted[0].lastmod <= e.lastmod then [e] + sorted
    else [sorted[0]] + InsertByLastmod(e, sorted[1..])
  }

  /** The library's stable sort, newest first. */
  function SortByLastmod(entries: seq<ChildEntry>): seq<ChildEntry> {
    if entries == [] then [] else InsertByLastmod(entries[0], SortByLastmod(entries[1..]))
  }

  function WithLastmod(entries: seq<ChildEntry>, lastmod: Time): seq<ChildEntry> {
    if entries == [] then []
    else (if entries[0].lastmod == lastmod then [entries[0]] else []) + WithLastmod(entries[1..], lastmod)
  }

  ghost predicate IsNewestFirst(entries: seq<ChildEntry>) {
    forall i, j :: 0 <= i < j < |entries| ==> entries[i].lastmod >= entries[j].lastmod
  }

  lemma {:induction false} InsertKeepsAll(e: ChildEntry, sorted: seq<ChildEntry>)
    ensures multiset(InsertByLastmod(e, sorted)) == multiset([e] + sorted)
  {
    if sorted != [] && sorted[0].lastmod > e.lastmod {
      InsertKeepsAll(e, sorted[1..]);
      assert sorted == [sorted[0]] + sorted[1..];
    }
  }

  lemma {:induction false} InsertSorts(e: ChildEntry, sorted: seq<ChildEntry>)
    requires IsNewestFirst(sorted)
    ensures IsNewestFirst(InsertByLastmod(e, sorted))
  {
    if sorted != [] && sorted[0].lastmod > e.lastmod {
      var rest := sorted[1..];
      assert forall i :: 0 <= i < |rest| ==> rest[i] == sorted[i + 1];
      InsertSorts(e, rest);
      var after := InsertByLastmod(e, rest);
      InsertKeepsAll(e, rest);
      forall k | 0 <= k < |after| ensures after[k].lastmod <= sorted[0].lastmod {
        assert after[k] in multiset(after);
        assert after[k] == e || after[k] in rest;
      }
    }
  }

  lemma {:induction false} InsertIsStable(e: ChildEntry, sorted: seq<ChildEntry>, lastmod: Time)
    ensures WithLastmod(InsertByLastmod(e, sorted), lastmod) == WithLastmod([e] + sorted, lastmod)
  {
    assert ([e] + sorted)[1..] == sorted;
    if sorted != [] && sorted[0].lastmod > e.lastmod {
      var rest := sorted[1..];
      InsertIsStable(e, rest, lastmod);
      var after := InsertByLastmod(e, rest);
      assert ([e] + rest)[1..] == rest && ([sorted[0]] + after)[1..] == after;
    }
  }

  /** The sort orders by lastmod, loses and invents nothing, and keeps document order among equals. */
  lemma {:induction false} SortIsStable(entries: seq<ChildEntry>, lastmod: Time)
    ensures var sorted := SortByLastmod(entries);
      && IsNewestFirst(sorted) && multiset(sorted) == multiset(entries)
      && WithLastmod(sorted, lastmod) == WithLastmod(entries, lastmod)
  {
    if entries != [] {
      SortIsStable(entries[1..], lastmod);
      var sorted := SortByLastmod(entries[1..]);
      InsertKeepsAll(entries[0], sorted);
      InsertSorts(entries[0], sorted);
      InsertIsStable(entries[0], sorted, lastmod);
      assert entries == [entries[0]] + entries[1..];
      assert ([entries[0]] + sorted)[1..] == sorted;
    }
  }

  function Selected(p: Setting, items: seq<Item>): seq<ChildEntry> {
    SortByLastmod(EligibleEntries(p, items))
  }

  /** Selected is every child from the cutoff on that the patterns include, and nothing else. */
  lemma SelectedExactly(p: Setting, items: seq<Item>, e: ChildEntry)
    ensures e in Selected(p, items) <==>
      && e.lastmod >= p.cutoff && p.isIncluded(e.loc)
      && exists item :: item in items && item.url == Some(e.loc) && item.updatedAt == Some(e.lastmod)
  {
    EligibleExactly(p, items, e);
    SortIsStable(EligibleEntries(p, items), 0);
    hide EligibleEntries, SortByLastmod;
    assert e in Selected(p, items) <==> e in multiset(Selected(p, items));
    assert e in EligibleEntries(p, items) <==> e in multiset(EligibleEntries(p, items));
  }

  function Kept(p: Setting, items: seq<Item>): (kept: seq<ChildEntry>)
    ensures |kept| <= MAX_CHILD_SITEMAPS
  {
    Selected(p, items)[..Min(|Selected(p, items)|, MAX_CHILD_SITEMAPS)]
  }

  /** How many children an index loses to the limit. */
  function Surplus(p: Setting, items: seq<Item>): nat {
    |Selected(p, items)| - |Kept(p, items)|
  }

  /** A child is dropped only if twenty others are kept, and none of these is older. */
  lemma NewestAreKept(p: Setting, items: seq<Item>, i: nat, j: nat)
    requires i < |Kept(p, items)| <= j < |Selected(p, items)|
    ensures |Kept(p, items)| == 20 && Kept(p, items)[i].lastmod >= Selected(p, items)[j].lastmod
  {
    SortIsStable(EligibleEntries(p, items), 0);
  }

  function IndexCounts(p: Setting, counts: Counts, items: seq<Item>): Counts {
    counts.(missingLastmodSkipped := counts.missingLastmodSkipped + MissingLastmod(items),
            patternExcluded := counts.patternExcluded + PatternExcluded(p, items),
            childrenTruncated := counts.childrenTruncated + Surplus(p, items))
  }

  lemma EligibleStep(p: Setting, items: seq<Item>, i: nat, eligible: seq<ChildEntry>)
    requires i < |items|
    ensures var isRecent := items[i].url.Some? && items[i].updatedAt.Some? && items[i].updatedAt.value >= p.cutoff;
      && eligible + EligibleEntries(p, items[i..])
         == (if isRecent && p.isIncluded(items[i].url.value)
             then eligible + [ChildEntry(items[i].url.value, items[i].updatedAt.value)] else eligible)
            + EligibleEntries(p, items[i + 1..])
      && MissingLastmod(items[i..])
         == MissingLastmod(items[i + 1..]) + (if items[i].url.Some? && items[i].updatedAt == None then 1 else 0)
      && PatternExcluded(p, items[i..])
         == PatternExcluded(p, items[i + 1..]) + if isRecent && !p.isIncluded(items[i].url.value) then 1 else 0
  {
    assert items[i..][0] == items[i] && items[i..][1..] == items[i + 1..];
    var rest := EligibleEntries(p, items[i + 1..]);
    if IsEligible(p, items[i]) {
      Associative(eligible, [ChildEntry(items[i].url.value, items[i].updatedAt.value)], rest);
    }
    assert [] + rest == rest;
  }

  method SelectChildEntries(p: Setting, items: seq<Item>, counts: Counts)
    returns (selected: seq<ChildEntry>, after: Counts)
    ensures selected == Selected(p, items)
    ensures after == counts.(missingLastmodSkipped := counts.missingLastmodSkipped + MissingLastmod(items),
                             patternExcluded := counts.patternExcluded + PatternExcluded(p, items))
  {
    var eligible: seq<ChildEntry> := [];
    after := counts;
    assert items[0..] == items;
    for i := 0 to |items|
      invariant eligible + EligibleEntries(p, items[i..]) == EligibleEntries(p, items)
      invariant after == counts.(missingLastmodSkipped := after.missingLastmodSkipped,
                                 patternExcluded := after.patternExcluded)
      invariant after.missingLastmodSkipped + MissingLastmod(items[i..])
             == counts.missingLastmodSkipped + MissingLastmod(items)
      invariant after.patternExcluded + PatternExcluded(p, items[i..])
             == counts.patternExcluded + PatternExcluded(p, items)
    {
      hide EligibleEntries, PatternExcluded, MissingLastmod;
      EligibleStep(p, items, i, eligible);
      if items[i].url == None { continue; }
      if items[i].updatedAt == None {
        after := after.(missingLastmodSkipped := after.missingLastmodSkipped + 1);
        continue;
      }
      if items[i].updatedAt.value < p.cutoff { continue; }
      if !p.isIncluded(items[i].url.value) {
        after := after.(patternExcluded := after.patternExcluded + 1);
        continue;
      }
      eligible := eligible + [ChildEntry(items[i].url.value, items[i].updatedAt.value)];
    }
    assert items[|items|..] == [] && EligibleEntries(p, []) == [] && eligible + [] == eligible;
    selected := SortByLastmod(eligible);
  }

  // ----- the traversal

  /** How far a call of traverseChild got. */
  datatype End =
    | OutOfOrigin
    | BaselineOnly
    | Gated         // its watermark is at or past the lastmod
    | Disallowed
    | OverBudget
    | NoDocument    // the fetch failed, the document is unmodified or does not parse
    | TooDeep
    | Expanded

  /**
    One call of traverseChild: how deep, whether the target existed before, how far it got, how much this call itself
    left out, whether it ran the commit, and how many entries there were when it began.
  */
  datatype Visit = Visit(
    url: Url,
    lastmod: Time,
    depth: nat,
    existed: bool,
    end: End,
    cut: nat,
    committed: bool,
    first: nat)

  datatype Walk = Walk(db: Db, counts: Counts, visits: seq<Visit>)

  function Left(s: Walk, v: Visit): Walk {
    s.(visits := s.visits + [v])
  }

  /** The last step: move the watermark and return. */
  function Committed(s: Walk, v: Visit): Walk {
    Left(s.(db := AfterAdvance(s.db, v.url, v.lastmod)), v.(committed := true))
  }

  predicate IsGated(db: Db, url: Url, lastmod: Time) {
    url in db.targets && db.targets[url].Some? && lastmod <= db.targets[url].value
  }

  function Rank(p: Setting, depth: nat): nat {
    Max(p.maxDepth - depth, 0)
  }

  function Child(p: Setting, s: Walk, e: ChildEntry, depth: nat): Walk
    decreases Rank(p, depth), 0, 0
  {
    var v := Visit(e.loc, e.lastmod, depth, e.loc in s.db.targets, OutOfOrigin, 0, false, |s.visits|);
    if !p.isInOrigin(e.loc) then Left(s.(counts := s.counts.(originBlocked := s.counts.originBlocked + 1)), v)
    else
      var known := s.(db := AfterUpsert(s.db, e.loc, if v.existed then None else Some(Some(e.lastmod))));
      if p.check.isBaseline then Left(known, v.(end := BaselineOnly))
      else if IsGated(s.db, e.loc, e.lastmod) then Left(known, v.(end := Gated))
      else if !p.isFetchAllowed(e.loc) then Left(known, v.(end := Disallowed))
      else if s.counts.fetchesUsed >= p.maxFetches then
        Left(known.(counts := s.counts.(fetchBudgetTruncated := s.counts.fetchBudgetTruncated + 1)),
             v.(end := OverBudget, cut := 1))
      else
        var fetched := known.(counts := s.counts.(fetchesUsed := s.counts.fetchesUsed + 1));
        match p.fetch(fetched.counts.fetchesUsed, e.loc)
        case UrlSet(items) => AfterUrlSet(p, fetched, items, v.(end := Expanded))
        case SitemapIndex(items) =>
          if depth + 1 < p.maxDepth then
            var below := Index(p, fetched, items, depth + 1);
            var w := v.(end := Expanded, cut := Surplus(p, items));
            if TruncationTotal(below.counts) > TruncationTotal(fetched.counts) then Left(below, w)
            else Committed(below, w)
          else
            Left(fetched.(counts := fetched.counts.(depthTruncated := fetched.counts.depthTruncated + 1)),
                 v.(end := TooDeep, cut := 1))
        case _ => Left(fetched, v.(end := NoDocument))
  }

  function AfterUrlSet(p: Setting, s: Walk, items: seq<Item>, v: Visit): Walk {
    var filtered := FilteredItems(items, p.cutoff);
    var counted := s.counts.(missingLastmodSkipped := s.counts.missingLastmodSkipped + MissingLastmod(items));
    var chosen := ToProcess(filtered, MAX_FEED_ITEMS_PER_CHECK);
    var cut := |filtered| - |chosen|;
    var after := s.(db := if filtered == [] then s.db else Processed(p.check, s.db, chosen), counts := counted);
    if cut > 0 then
      Left(after.(counts := counted.(feedItemsTruncated := counted.feedItemsTruncated + cut)), v.(cut := cut))
    else Committed(after, v)
  }

  function Children(p: Setting, s: Walk, entries: seq<ChildEntry>, depth: nat): Walk
    decreases Rank(p, depth), 1, |entries|
  {
    if entries == [] then s else Children(p, Child(p, s, entries[0], depth), entries[1..], depth)
  }

  function Index(p: Setting, s: Walk, items: seq<Item>, depth: nat): Walk
    decreases Rank(p, depth), 2, 0
  {
    Children(p, s.(counts := IndexCounts(p, s.counts, items)), Kept(p, items), depth)
  }

  // ----- the same with the state updated in place

  class Traversal {
    const tables: Tables
    var counts: Counts
    var visits: seq<Visit>

    constructor (tables: Tables)
      ensures this.tables == tables && Value() == Walk(tables.Value(), NO_COUNTS, [])
    {
      this.tables := tables;
      counts, visits := NO_COUNTS, [];
    }

    function Value(): Walk
      reads this, tables
    {
      Walk(tables.Value(), counts, visits)
    }

    method Leave(v: Visit)
      modifies this
      ensures Value() == Left(old(Value()), v)
    {
      visits := visits + [v];
    }

    method TraverseChild(p: Setting, e: ChildEntry, depth: nat)
      modifies this, tables
      ensures Value() == Child(p, old(Value()), e, depth)
      decreases Rank(p, depth), 0, 0
    {
      hide Index, AfterUpsert, AfterAdvance, AfterUrlSet, Surplus;
      var v := Visit(e.loc, e.lastmod, depth, e.loc in tables.targets, OutOfOrigin, 0, false, |visits|);
      if !p.isInOrigin(e.loc) {
        counts := counts.(originBlocked := counts.originBlocked + 1);
        Leave(v);
        return;
      }
      var previous := if v.existed then tables.targets[e.loc] else None;
      tables.UpsertTarget(e.loc, if v.existed then None else Some(Some(e.lastmod)));
      if p.check.isBaseline {
        Leave(v.(end := BaselineOnly));
        return;
      }
      if v.existed && previous.Some? && e.lastmod <= previous.value {
        Leave(v.(end := Gated));
        return;
      }
      if !p.isFetchAllowed(e.loc) {
        Leave(v.(end := Disallowed));
        return;
      }
      if counts.fetchesUsed >= p.maxFetches {
        counts := counts.(fetchBudgetTruncated := counts.fetchBudgetTruncated + 1);
        Leave(v.(end := OverBudget, cut := 1));
        return;
      }
      counts := counts.(fetchesUsed := counts.fetchesUsed + 1);
      match p.fetch(counts.fetchesUsed, e.loc)
      case UrlSet(items) =>
        ExpandUrlSet(p, items, v.(end := Expanded));
      case SitemapIndex(items) =>
        if depth + 1 < p.maxDepth {
          var truncatedBefore := TruncationTotal(counts);
          TraverseSitemapIndex(p, items, depth + 1);
          var w := v.(end := Expanded, cut := Surplus(p, items));
          if TruncationTotal(counts) > truncatedBefore {
            Leave(w);
          } else {
            tables.SetTargetLastKnownUpdatedAt(e.loc, e.lastmod);
            Leave(w.(committed := true));
          }
        } else {
          counts := counts.(depthTruncated := counts.depthTruncated + 1);
          Leave(v.(end := TooDeep, cut := 1));
        }
      case _ =>
        Leave(v.(end := NoDocument));
    }

    method ExpandUrlSet(p: Setting, items: seq<Item>, v: Visit)
      modifies this, tables
      ensures Value() == AfterUrlSet(p, old(Value()), items, v)
    {
      hide FilteredItems, MissingLastmod, Processed, AfterAdvance;
      var filtered;
      filtered, counts := FilterItemsForTraversal(items, p.cutoff, counts);
      if |filtered| > 0 {
        var truncatedCount, changeIds := ProcessFeedItems(tables, p.check, filtered, MAX_FEED_ITEMS_PER_CHECK);
        if truncatedCount > 0 {
          counts := counts.(feedItemsTruncated := counts.feedItemsTruncated + truncatedCount);
          Leave(v.(cut := truncatedCount));
          return;
        }
      }
      tables.SetTargetLastKnownUpdatedAt(v.url, v.lastmod);
      Leave(v.(committed := true));
    }

    method TraverseSitemapIndex(p: Setting, items: seq<Item>, depth: nat)
      modifies this, tables
      ensures Value() == Index(p, old(Value()), items, depth)
      decreases Rank(p, depth), 2, 0
    {
      hide Child, Selected, MissingLastmod, PatternExcluded;
      var selected;
      selected, counts := SelectChildEntries(p, items, counts);
      var toProcess := selected[..Min(|selected|, MAX_CHILD_SITEMAPS)];
      if |selected| > MAX_CHILD_SITEMAPS {
        counts := counts.(childrenTruncated := counts.childrenTruncated + |selected| - MAX_CHILD_SITEMAPS);
      }
      assert counts == IndexCounts(p, old(counts), items) && toProcess == Kept(p, items);
      ghost var start := Value();
      assert toProcess[0..] == toProcess;
      for i := 0 to |toProcess|
        invariant Children(p, Value(), toProcess[i..], depth) == Children(p, start, toProcess, depth)
      {
        assert toProcess[i..][1..] == toProcess[i + 1..];
        TraverseChild(p, toProcess[i], depth);
      }
    }
  }
}
