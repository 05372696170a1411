/**
  Feed checks over time: any number of runs, each cut short by a crash anywhere or not at all. The tables keep their
  invariant, no watermark goes back, and running a complete check again does nothing.
*/
module FeedRecovery {
  import opened Common
  import opened Database
  import opened Feed
  import opened FeedFrames

  // ----- any runs, any crashes

  datatype Run = Run(check: Check, items: seq<Item>, fuel: nat)

  /** The tables after the first `n` runs, one after the other. */
  function StateAfter(runs: seq<Run>, n: nat): Db
    requires n <= |runs|
  {
    if n == 0 then EMPTY
    else Processed(runs[n - 1].check, StateAfter(runs, n - 1).(fuel := runs[n - 1].fuel), runs[n - 1].items)
  }

  /** One change for each key, one delivery for each change and destination, one message at most for each delivery. */
  lemma {:induction false} RunsKeepInv(runs: seq<Run>, n: nat)
    requires n <= |runs|
    ensures Inv(StateAfter(runs, n))
  {
    hide Inv, Processed;
    if n == 0 {
      EmptyInv(0);
      assert EMPTY.(fuel := 0) == EMPTY;
    } else {
      RunsKeepInv(runs, n - 1);
      RefuelKeepsInv(StateAfter(runs, n - 1), runs[n - 1].fuel);
      ProcessedKeeps(runs[n - 1].check, StateAfter(runs, n - 1).(fuel := runs[n - 1].fuel), runs[n - 1].items);
    }
  }

  ghost predicate NeverBack(a: Db, b: Db) {
    forall u :: u in a.targets ==> u in b.targets && IsAtLeast(b.targets[u], a.targets[u])
  }

  /** No run, complete or not, moves a watermark back. */
  lemma {:induction false} WatermarksOnlyAdvance(runs: seq<Run>, i: nat, n: nat)
    requires i <= n <= |runs|
    ensures NeverBack(StateAfter(runs, i), StateAfter(runs, n))
  {
    hide Inv, Processed;
    if i < n {
      WatermarksOnlyAdvance(runs, i, n - 1);
      RunsKeepInv(runs, n - 1);
      var before := StateAfter(runs, n - 1).(fuel := runs[n - 1].fuel);
      RefuelKeepsInv(StateAfter(runs, n - 1), runs[n - 1].fuel);
      ProcessedKeeps(runs[n - 1].check, before, runs[n - 1].items);
      assert NeverBack(before, StateAfter(runs, n));
    }
  }

  // ----- announced, and at rest

  ghost predicate AnnouncedAt(db: Db, check: Check, id: nat, key: DedupeKey) {
    && id < |db.changes| && db.changes[id].key == key
    && (check.classifier.Some? ==> db.changes[id].tags.Some?)
    && HasDeliveries(db, id, Destinations(check, db.changes[id]))
  }

  /** The update to the item's time is announced. */
  ghost predicate IsAnnounced(db: Db, check: Check, item: Item) {
    exists id: nat :: AnnouncedAt(db, check, id, DedupeKey(item.stableKey, item.updatedAt))
  }

  /** The next check has nothing to do for the item: its target is at this time, or the update to it was announced. */
  ghost predicate IsAtRest(db: Db, check: Check, item: Item) {
    !IsSkipped(check, item) ==>
    && item.url.value in db.targets
    && (|| item.updatedAt == None
        || db.targets[item.url.value] == item.updatedAt
        || (IsAtLeast(db.targets[item.url.value], item.updatedAt) && IsAnnounced(db, check, item)))
  }

  /** The watermark that Detect compares the items of a page with: the stored one, or the time it is first listed at. */
  function StartTime(db: Db, items: seq<Item>, url: Url): Option<Time> {
    if url in db.targets then db.targets[url]
    else if items == [] then None
    else if items[0].url == Some(url) then items[0].updatedAt
    else StartTime(db, items[1..], url)
  }

  /** The check finds nothing new in the item, but lists its page at a later time as well. */
  predicate IsRaised(check: Check, db: Db, items: seq<Item>, i: nat)
    requires i < |items|
  {
    && !IsSkipped(check, items[i])
    && items[i].updatedAt.Some? && items[i].updatedAt == StartTime(db, items, items[i].url.value)
    && exists b :: 0 <= b < |items| && items[b].url == items[i].url && items[b].updatedAt.Some?
                && items[b].updatedAt.value > items[i].updatedAt.value
  }

  predicate DistinctUrls(items: seq<Item>) {
    forall i, j :: 0 <= i < j < |items| ==> items[i].url == None || items[i].url != items[j].url
  }

  lemma DistinctIsNotRaised(check: Check, db: Db, items: seq<Item>, i: nat)
    requires i < |items| && DistinctUrls(items)
    ensures !IsRaised(check, db, items, i)
  {
  }

  predicate Announces(d: Detected, item: Item) {
    && item.url == Some(d.url) && d.advanceTo.Some? && d.advanceTo == item.updatedAt
    && d.row.key == DedupeKey(item.stableKey, item.updatedAt)
  }

  lemma DetectOneStart(check: Check, db: Db, item: Item)
    requires !check.isBaseline && !IsSkipped(check, item) && DetectOne(check, db, item).0.fuel > 0
    ensures var (after, found) := DetectOne(check, db, item);
      var start := if item.url.value in db.targets then db.targets[item.url.value] else item.updatedAt;
      && item.url.value in after.targets && after.targets[item.url.value] == start
      && (item.updatedAt.Some? && item.updatedAt != start ==> |found| == 1 && Announces(found[0], item))
  {
  }

  lemma StartOfRest(db: Db, first: Db, items: seq<Item>, url: Url)
    requires items != []
    requires url in db.targets ==> url in first.targets && first.targets[url] == db.targets[url]
    requires url !in db.targets && items[0].url == Some(url) ==>
      url in first.targets && first.targets[url] == items[0].updatedAt
    requires url !in db.targets && items[0].url != Some(url) ==> url !in first.targets
    ensures StartTime(first, items[1..], url) == StartTime(db, items, url)
  {
  }

  /**
    After Detect the target of an item is at the start time, and any item at another time is listed to be announced.
  */
  lemma {:induction false} DetectStart(check: Check, db: Db, items: seq<Item>, i: nat)
    requires Inv(db) && !check.isBaseline && i < |items| && !IsSkipped(check, items[i])
    requires DetectAll(check, db, items).0.fuel > 0
    ensures var (after, detected) := DetectAll(check, db, items);
      var url := items[i].url.value; var start := StartTime(db, items, url);
      && url in after.targets && after.targets[url] == start
      && (items[i].updatedAt.Some? && items[i].updatedAt != start ==>
            exists k :: 0 <= k < |detected| && Announces(detected[k], items[i]))
    decreases items
  {
    hide Inv, DetectOne, Announces;
    var url := items[i].url.value;
    var (first, found) := DetectOne(check, db, items[0]);
    var (last, more) := DetectAll(check, first, items[1..]);
    DetectOneKeeps(check, db, items[0]);
    DetectAllKeeps(check, first, items[1..]);
    DetectOneComesFrom(check, db, items[0]);
    if items[0].url == Some(url) {
      DetectOneStart(check, db, items[0]);
    }
    if i == 0 {
      DetectTargets(check, first, items[1..], url);
      if |found| == 1 {
        assert (found + more)[0] == found[0];
      }
    } else {
      DetectStart(check, first, items[1..], i - 1);
      StartOfRest(db, first, items, url);
      if k :| 0 <= k < |more| && Announces(more[k], items[i]) {
        assert (found + more)[|found| + k] == more[k];
      }
    }
  }

  // ----- the rows carried along are the stored ones

  ghost predicate IsCurrent(db: Db, d: Detected) {
    d.change < |db.changes| && d.row == db.changes[d.change]
  }

  ghost predicate AllCurrent(db: Db, detected: seq<Detected>) {
    forall k :: 0 <= k < |detected| ==> IsCurrent(db, detected[k])
  }

  lemma DetectOneCurrent(check: Check, db: Db, item: Item)
    requires DetectOne(check, db, item).0.fuel > 0
    ensures var (after, found) := DetectOne(check, db, item); db.changes <= after.changes && AllCurrent(after, found)
  {
  }

  lemma {:induction false} DetectCurrent(check: Check, db: Db, items: seq<Item>)
    requires Inv(db) && DetectAll(check, db, items).0.fuel > 0
    ensures var (after, detected) := DetectAll(check, db, items);
      db.changes <= after.changes && AllCurrent(after, detected)
    decreases items
  {
    hide Inv, DetectOne;
    if items != [] {
      var (first, found) := DetectOne(check, db, items[0]);
      DetectOneKeeps(check, db, items[0]);
      DetectAllKeeps(check, first, items[1..]);
      DetectOneCurrent(check, db, items[0]);
      DetectCurrent(check, first, items[1..]);
    }
  }

  ghost predicate IsTagged(check: Check, d: Detected) {
    check.classifier.Some? ==> d.row.tags.Some?
  }

  lemma ClassifyOneCurrent(check: Check, db: Db, d: Detected)
    requires ClassifyOne(check, db, d).0.fuel > 0 && d.change < |db.changes|
    requires d.row == db.changes[d.change].(tags := d.row.tags) && TagsKept(d.row.tags, db.changes[d.change].tags)
    requires check.classifier == None ==> IsCurrent(db, d)
    ensures var (after, e) := ClassifyOne(check, db, d);
      IsCurrent(after, e) && IsTagged(check, e) && SameButTags(d, e) && after.targets == db.targets
    ensures check.classifier == None ==> ClassifyOne(check, db, d) == (db, d)
  {
  }

  lemma TaggedStaysCurrent(check: Check, a: Db, b: Db, d: Detected)
    requires Grows(a, b) && IsCurrent(a, d) && IsTagged(check, d) && check.classifier.Some?
    ensures IsCurrent(b, d)
  {
    assert b.changes[d.change] == a.changes[d.change].(tags := b.changes[d.change].tags);
  }

  lemma {:induction false} ClassifyCurrent(check: Check, db: Db, detected: seq<Detected>)
    requires Inv(db) && AllOk(db, detected) && ClassifyAll(check, db, detected).0.fuel > 0
    requires check.classifier == None ==> AllCurrent(db, detected)
    ensures var (after, classified) := ClassifyAll(check, db, detected);
      && AllCurrent(after, classified) && after.targets == db.targets
      && forall k :: 0 <= k < |detected| ==> SameButTags(detected[k], classified[k]) && IsTagged(check, classified[k])
    ensures check.classifier == None ==> ClassifyAll(check, db, detected).0 == db
    decreases detected
  {
    hide Inv, ClassifyOne, Grows, IsCurrent, SameButTags, IsTagged;
    if detected != [] {
      var (first, d) := ClassifyOne(check, db, detected[0]);
      assert DetectedOk(db, detected[0]);
      FuelOfClassify(check, db, detected);
      ClassifyOneCurrent(check, db, detected[0]);
      ClassifyOneKeeps(check, db, detected[0]);
      OkGrows(db, first, detected[1..]);
      ClassifyCurrent(check, first, detected[1..]);
      ClassifyAllKeeps(check, first, detected[1..]);
      var (last, more) := ClassifyAll(check, first, detected[1..]);
      if check.classifier.Some? {
        TaggedStaysCurrent(check, first, last, d);
      }
      assert IsCurrent(last, d);
    }
  }

  lemma FuelOfClassify(check: Check, db: Db, detected: seq<Detected>)
    requires Inv(db) && AllOk(db, detected) && detected != [] && ClassifyAll(check, db, detected).0.fuel > 0
    ensures ClassifyOne(check, db, detected[0]).0.fuel > 0 && db.fuel > 0
  {
    hide Inv;
    var (first, d) := ClassifyOne(check, db, detected[0]);
    ClassifyOneKeeps(check, db, detected[0]);
    OkGrows(db, first, detected[1..]);
    ClassifyAllKeeps(check, first, detected[1..]);
  }

  // ----- Notify

  lemma {:induction false} NotifyMovedBy(check: Check, db: Db, detected: seq<Detected>, url: Url) returns (k: nat)
    requires url in db.targets && url in NotifyAll(check, db, detected).targets
    requires NotifyAll(check, db, detected).targets[url] != db.targets[url]
    ensures k < |detected| && detected[k].url == url && detected[k].advanceTo.Some?
    ensures detected[k].advanceTo == NotifyAll(check, db, detected).targets[url]
    decreases detected
  {
    hide NotifyOne;
    var first := NotifyOne(check, db, detected[0]);
    NotifyOneFrame(check, db, detected[0], url);
    assert url in first.targets.Keys;
    if NotifyAll(check, first, detected[1..]).targets[url] != first.targets[url] {
      var j := NotifyMovedBy(check, first, detected[1..], url);
      k := j + 1;
    } else {
      k := 0;
      NotifyOneMovesTo(check, db, detected[0], url);
    }
  }

  lemma NotifyOneMovesTo(check: Check, db: Db, d: Detected, url: Url)
    requires url in db.targets && url in NotifyOne(check, db, d).targets
    requires NotifyOne(check, db, d).targets[url] != db.targets[url]
    ensures d.advanceTo.Some? && d.advanceTo == NotifyOne(check, db, d).targets[url]
  {
    hide Fanout;
    FanoutFrame(db, d.change, Destinations(check, d.row));
  }

  lemma {:induction false} NotifyAnnounces(check: Check, db: Db, detected: seq<Detected>, k: nat)
    requires Inv(db) && AllOk(db, detected) && AllCurrent(db, detected) && k < |detected|
    requires NotifyAll(check, db, detected).fuel > 0 && IsTagged(check, detected[k])
    ensures AnnouncedAt(NotifyAll(check, db, detected), check, detected[k].change, detected[k].row.key)
    ensures detected[k].url in db.targets ==>
      && detected[k].url in NotifyAll(check, db, detected).targets
      && IsAtLeast(NotifyAll(check, db, detected).targets[detected[k].url], detected[k].advanceTo)
    decreases detected
  {
    hide Inv, NotifyOne, DetectedOk;
    var d := detected[0];
    var first := NotifyOne(check, db, d);
    NotifyOneKeeps(check, db, d);
    NotifyOneFrame(check, db, d, d.url);
    OkGrows(db, first, detected[1..]);
    NotifyAllKeeps(check, first, detected[1..]);
    if k == 0 {
      NotifyAddsNone(check, first, detected[1..]);
    } else {
      NotifyAnnounces(check, first, detected[1..], k - 1);
    }
  }

  /** A check that is not cut short announces every item whose time is not the start time of its page. */
  lemma CompleteRunMoves(check: Check, db: Db, items: seq<Item>, i: nat)
    requires Inv(db) && !check.isBaseline && i < |items| && !IsSkipped(check, items[i])
    requires Processed(check, db, items).fuel > 0
    ensures var after := Processed(check, db, items); var url := items[i].url.value;
      && url in after.targets && IsAtLeast(after.targets[url], StartTime(db, items, url))
      && (items[i].updatedAt.Some? && items[i].updatedAt != StartTime(db, items, url) ==>
            IsAnnounced(after, check, items[i]) && IsAtLeast(after.targets[url], items[i].updatedAt))
  {
    hide Inv, DetectAll, ClassifyAll, NotifyAll, AnnouncedAt, StartTime;
    var (found, detected) := DetectAll(check, db, items);
    var (tagged, classified) := ClassifyAll(check, found, detected);
    DetectAllKeeps(check, db, items);
    ClassifyAllKeeps(check, found, detected);
    NotifyAllKeeps(check, tagged, classified);
    DetectStart(check, db, items, i);
    DetectCurrent(check, db, items);
    ClassifyCurrent(check, found, detected);
    if k :| 0 <= k < |detected| && Announces(detected[k], items[i]) {
      assert SameButTags(detected[k], classified[k]);
      NotifyAnnounces(check, tagged, classified, k);
    }
  }

  /** A watermark that a complete check leaves elsewhere than it started is the time of one of the items of its page. */
  lemma CompleteRunStays(check: Check, db: Db, items: seq<Item>, i: nat)
    requires Inv(db) && !check.isBaseline && i < |items| && !IsSkipped(check, items[i])
    requires Processed(check, db, items).fuel > 0
    ensures var after := Processed(check, db, items); var url := items[i].url.value;
      && url in after.targets
      && (|| after.targets[url] == StartTime(db, items, url)
          || exists b :: 0 <= b < |items| && items[b].url == Some(url) && items[b].updatedAt == after.targets[url])
  {
    hide Inv, DetectAll, ClassifyAll, NotifyAll, AnnouncedAt, StartTime, ComesFrom;
    var (found, detected) := DetectAll(check, db, items);
    var (tagged, classified) := ClassifyAll(check, found, detected);
    var url := items[i].url.value;
    var after := NotifyAll(check, tagged, classified);
    DetectAllKeeps(check, db, items);
    ClassifyAllKeeps(check, found, detected);
    NotifyAllKeeps(check, tagged, classified);
    DetectStart(check, db, items, i);
    ClassifyFrame(check, found, detected);
    NotifyTargets(check, tagged, classified);
    assert url in after.targets.Keys;
    if after.targets[url] != tagged.targets[url] {
      var k := NotifyMovedBy(check, tagged, classified, url);
      DetectComesFrom(check, db, items, k);
      assert SameButTags(detected[k], classified[k]);
      ItemOfEntry(detected[k], classified[k]);
      var b :| 0 <= b < |items| && items[b] == detected[k].item;
    }
  }

  lemma ItemOfEntry(d: Detected, e: Detected)
    requires ComesFrom(d, d.item) && SameButTags(d, e) && e.advanceTo.Some?
    ensures d.item.url == Some(e.url) && d.item.updatedAt == e.advanceTo
  {
  }

  /**
    A check that is not cut short leaves an item at rest, unless it found nothing new in the item and lists its page at
    a later time too: then the next check takes the item for an update.
  */
  lemma CompleteRunRests(check: Check, db: Db, items: seq<Item>, i: nat)
    requires Inv(db) && !check.isBaseline && i < |items| && Processed(check, db, items).fuel > 0
    ensures var after := Processed(check, db, items);
      && (IsAtRest(after, check, items[i]) <==> !IsRaised(check, db, items, i) || IsAnnounced(after, check, items[i]))
      && (!IsAtRest(after, check, items[i]) ==> IsDue(check, after, items[i]))
  {
    hide Inv, Processed, StartTime, IsAnnounced;
    if !IsSkipped(check, items[i]) {
      CompleteRunMoves(check, db, items, i);
      CompleteRunStays(check, db, items, i);
      if IsRaised(check, db, items, i) {
        var b :| 0 <= b < |items| && items[b].url == items[i].url && items[b].updatedAt.Some?
              && items[b].updatedAt.value > items[i].updatedAt.value;
        CompleteRunMoves(check, db, items, b);
      }
    }
  }

  // ----- running again

  /** Everything the entry asks for is there already. */
  ghost predicate IsDone(db: Db, check: Check, d: Detected) {
    && IsCurrent(db, d) && AnnouncedAt(db, check, d.change, d.row.key)
    && (d.advanceTo.Some? ==> d.url in db.targets && IsAtLeast(db.targets[d.url], d.advanceTo))
  }

  ghost predicate AllDone(db: Db, check: Check, detected: seq<Detected>) {
    forall k :: 0 <= k < |detected| ==> IsDone(db, check, detected[k])
  }

  lemma FindAnnounced(db: Db, check: Check, key: DedupeKey)
    requires Inv(db) && exists id: nat :: AnnouncedAt(db, check, id, key)
    ensures FindChange(db.changes, key, 0).Some? && AnnouncedAt(db, check, FindChange(db.changes, key, 0).value, key)
  {
    var id: nat :| AnnouncedAt(db, check, id, key);
    var found := FindChange(db.changes, key, 0);
    assert found.Some?;
    assert found.value == id;
  }

  lemma DetectOneAgain(check: Check, db: Db, item: Item)
    requires Inv(db) && !check.isBaseline && IsAtRest(db, check, item)
    ensures DetectOne(check, db, item).0 == db && AllDone(db, check, DetectOne(check, db, item).1)
  {
    hide Inv, AnnouncedAt;
    if !IsSkipped(check, item) && item.updatedAt.Some? && item.updatedAt != db.targets[item.url.value] {
      FindAnnounced(db, check, DedupeKey(item.stableKey, item.updatedAt));
      AnnouncedIsStored(db, check, FindChange(db.changes, DedupeKey(item.stableKey, item.updatedAt), 0).value,
                        DedupeKey(item.stableKey, item.updatedAt));
    }
  }

  lemma AnnouncedIsStored(db: Db, check: Check, id: nat, key: DedupeKey)
    requires AnnouncedAt(db, check, id, key)
    ensures id < |db.changes| && db.changes[id].key == key
  {
  }

  lemma {:induction false} DetectAgain(check: Check, db: Db, items: seq<Item>)
    requires Inv(db) && !check.isBaseline
    requires forall i :: 0 <= i < |items| ==> IsAtRest(db, check, items[i])
    ensures DetectAll(check, db, items).0 == db && AllDone(db, check, DetectAll(check, db, items).1)
    decreases items
  {
    hide Inv, DetectOne, IsAtRest, IsDone;
    if items != [] {
      DetectOneAgain(check, db, items[0]);
      DetectAgain(check, db, items[1..]);
    }
  }

  lemma {:induction false} ClassifyAgain(check: Check, db: Db, detected: seq<Detected>)
    requires AllDone(db, check, detected)
    ensures ClassifyAll(check, db, detected) == (db, detected)
    decreases detected
  {
    if detected != [] {
      assert IsDone(db, check, detected[0]);
      ClassifyAgain(check, db, detected[1..]);
      assert detected == [detected[0]] + detected[1..];
    }
  }

  lemma {:induction false} FanoutAgain(db: Db, change: nat, destinations: seq<Destination>)
    requires HasDeliveries(db, change, destinations)
    ensures Fanout(db, change, destinations) == db
    decreases destinations
  {
    if destinations != [] {
      assert Delivery(change, destinations[0]) in db.deliveries;
      FanoutAgain(db, change, destinations[1..]);
    }
  }

  lemma {:induction false} NotifyAgain(check: Check, db: Db, detected: seq<Detected>)
    requires AllDone(db, check, detected)
    ensures NotifyAll(check, db, detected) == db
    decreases detected
  {
    if detected != [] {
      assert IsDone(db, check, detected[0]);
      FanoutAgain(db, detected[0].change, Destinations(check, detected[0].row));
      NotifyAgain(check, db, detected[1..]);
    }
  }

  lemma AtRestAfterRefuel(db: Db, check: Check, item: Item, fuel: nat)
    requires IsAtRest(db, check, item)
    ensures IsAtRest(db.(fuel := fuel), check, item)
  {
    var key := DedupeKey(item.stableKey, item.updatedAt);
    if id: nat :| AnnouncedAt(db, check, id, key) {
      assert AnnouncedAt(db.(fuel := fuel), check, id, key);
    }
  }

  /**
    The same check on the same items again: no change, delivery, message or watermark, wherever it may stop, if the
    first was complete and left every item at rest; as it does when no page is listed at two times.
  */
  lemma SecondRunChangesNothing(check: Check, db: Db, items: seq<Item>, fuel: nat)
    requires Inv(db) && Processed(check, db, items).fuel > 0
    requires forall i :: 0 <= i < |items| ==>
      !IsRaised(check, db, items, i) || IsAnnounced(Processed(check, db, items), check, items[i])
    ensures var after := Processed(check, db, items).(fuel := fuel); Processed(check, after, items) == after
  {
    hide Inv, DetectAll, ClassifyAll, NotifyAll, IsAtRest, AllDone, IsRaised, IsAnnounced;
    var after := Processed(check, db, items).(fuel := fuel);
    if check.isBaseline {
      BaselineRegisters(check, db, items);
      BaselineAgain(check, after, items);
    } else {
      forall i | 0 <= i < |items| ensures IsAtRest(after, check, items[i]) {
        CompleteRunRests(check, db, items, i);
        AtRestAfterRefuel(Processed(check, db, items), check, items[i], fuel);
      }
      ProcessedKeeps(check, db, items);
      RefuelKeepsInv(Processed(check, db, items), fuel);
      DetectAgain(check, after, items);
      ClassifyAgain(check, after, DetectAll(check, after, items).1);
      NotifyAgain(check, after, DetectAll(check, after, items).1);
    }
  }

  // ----- the first check of a monitor

  ghost predicate AllRegistered(check: Check, db: Db, items: seq<Item>) {
    forall i :: 0 <= i < |items| && !IsSkipped(check, items[i]) ==> items[i].url.value in db.targets
  }

  lemma {:induction false} BaselineDetect(check: Check, db: Db, items: seq<Item>)
    requires check.isBaseline
    ensures var (after, detected) := DetectAll(check, db, items);
      && detected == [] && after == db.(targets := after.targets, fuel := after.fuel)
      && after.fuel <= db.fuel
      && (forall u :: u in db.targets ==> u in after.targets && after.targets[u] == db.targets[u])
      && (after.fuel > 0 ==> AllRegistered(check, after, items))
    decreases items
  {
    hide AfterInsert;
    if items != [] {
      BaselineDetect(check, DetectOne(check, db, items[0]).0, items[1..]);
    }
  }

  lemma NothingDetected(check: Check, db: Db, items: seq<Item>)
    requires DetectAll(check, db, items).1 == []
    ensures Processed(check, db, items) == DetectAll(check, db, items).0
  {
    hide DetectAll;
    var found := DetectAll(check, db, items).0;
    assert ClassifyAll(check, found, []) == (found, []);
    assert NotifyAll(check, found, []) == found;
  }

  /** A baseline check writes targets only. */
  lemma BaselineRegisters(check: Check, db: Db, items: seq<Item>)
    requires check.isBaseline
    ensures var after := Processed(check, db, items);
      && after.changes == db.changes && after.deliveries == db.deliveries && after.queue == db.queue
      && (after.fuel > 0 ==> AllRegistered(check, after, items))
  {
    BaselineDetect(check, db, items);
    NothingDetected(check, db, items);
  }

  lemma {:induction false} BaselineAgain(check: Check, db: Db, items: seq<Item>)
    requires check.isBaseline && AllRegistered(check, db, items)
    ensures Processed(check, db, items) == db
    decreases items
  {
    if items == [] {
    } else {
      assert !IsSkipped(check, items[0]) ==> items[0].url.value in db.targets;
      assert DetectOne(check, db, items[0]) == (db, []);
      forall i | 0 <= i < |items[1..]| && !IsSkipped(check, items[1..][i])
        ensures items[1..][i].url.value in db.targets
      {
        assert items[1..][i] == items[i + 1];
      }
      BaselineAgain(check, db, items[1..]);
      BaselineDetect(check, db, items[1..]);
      NothingDetected(check, db, items[1..]);
      assert DetectAll(check, db, items).1 == [] + DetectAll(check, db, items[1..]).1;
    }
    BaselineDetect(check, db, items);
    NothingDetected(check, db, items);
  }

  lemma {:induction false} BaselineStart(check: Check, db: Db, items: seq<Item>, i: nat)
    requires check.isBaseline && i < |items| && !IsSkipped(check, items[i]) && DetectAll(check, db, items).0.fuel > 0
    ensures items[i].url.value in DetectAll(check, db, items).0.targets
    ensures DetectAll(check, db, items).0.targets[items[i].url.value] == StartTime(db, items, items[i].url.value)
    decreases items
  {
    var url := items[i].url.value;
    var first := DetectOne(check, db, items[0]).0;
    BaselineDetect(check, first, items[1..]);
    DetectOneComesFrom(check, db, items[0]);
    if i == 0 {
      DetectTargets(check, first, items[1..], url);
    } else {
      BaselineStart(check, first, items[1..], i - 1);
      StartOfRest(db, first, items, url);
    }
  }

  /** The check has something to report: a page it does not know, or one with another time than its watermark. */
  predicate IsDue(check: Check, db: Db, item: Item) {
    && !IsSkipped(check, item)
    && (item.url.value in db.targets ==> item.updatedAt.Some? && item.updatedAt != db.targets[item.url.value])
  }

  lemma {:induction false} NothingNew(check: Check, db: Db, items: seq<Item>)
    requires !check.isBaseline
    requires forall i :: 0 <= i < |items| ==> !IsDue(check, db, items[i])
    ensures DetectAll(check, db, items) == (db, [])
    decreases items
  {
    if items != [] {
      assert !IsDue(check, db, items[0]);
      assert DetectOne(check, db, items[0]) == (db, []);
      NothingNew(check, db, items[1..]);
      assert DetectAll(check, db, items).1 == [] + DetectAll(check, db, items[1..]).1;
    }
  }

  lemma {:induction false} SomethingDue(check: Check, db: Db, items: seq<Item>, i: nat)
    requires !check.isBaseline && i < |items| && IsDue(check, db, items[i]) && items[i].url.value in db.targets
    ensures DetectAll(check, db, items).1 != []
    decreases items
  {
    if i > 0 {
      DetectOneComesFrom(check, db, items[0]);
      hide DetectOne;
      SomethingDue(check, DetectOne(check, db, items[0]).0, items[1..], i - 1);
    }
  }

  /** The item is at the time its page was known at, or first listed at. */
  predicate IsAtStart(check: Check, db: Db, items: seq<Item>, i: nat)
    requires i < |items|
  {
    || IsSkipped(check, items[i])
    || items[i].updatedAt == None
    || items[i].updatedAt == StartTime(db, items, items[i].url.value)
  }

  lemma DueAfterBaseline(first: Check, next: Check, db: Db, items: seq<Item>, fuel: nat, i: nat)
    requires first.isBaseline && !next.isBaseline && first.isAllowed == next.isAllowed && i < |items|
    requires Processed(first, db, items).fuel > 0
    ensures var after := Processed(first, db, items).(fuel := fuel);
      && (IsDue(next, after, items[i]) <==> !IsAtStart(next, db, items, i))
      && (!IsSkipped(next, items[i]) ==> items[i].url.value in after.targets)
  {
    hide DetectAll, StartTime, Processed;
    NothingFoundAtFirst(first, db, items);
    if !IsSkipped(next, items[i]) {
      BaselineStart(first, db, items, i);
    }
  }

  lemma NothingFoundAtFirst(first: Check, db: Db, items: seq<Item>)
    requires first.isBaseline
    ensures Processed(first, db, items) == DetectAll(first, db, items).0
  {
    hide DetectAll, Processed;
    BaselineDetect(first, db, items);
    NothingDetected(first, db, items);
  }

  /**
    The check after the baseline, on the same items, finds nothing, so that a site's existing pages notify nobody,
    exactly if none of them is listed at a second time.
  */
  lemma BaselineThenSilence(first: Check, next: Check, db: Db, items: seq<Item>, fuel: nat)
    requires first.isBaseline && !next.isBaseline && first.isAllowed == next.isAllowed
    requires Processed(first, db, items).fuel > 0
    ensures var after := Processed(first, db, items).(fuel := fuel);
      && (DetectAll(next, after, items).1 == [] <==> forall i :: 0 <= i < |items| ==> IsAtStart(next, db, items, i))
      && (DetectAll(next, after, items).1 == [] ==> Processed(next, after, items) == after)
  {
    hide DetectAll, Processed, IsAtStart, IsDue;
    var after := Processed(first, db, items).(fuel := fuel);
    forall i | 0 <= i < |items| ensures IsDue(next, after, items[i]) <==> !IsAtStart(next, db, items, i) {
      DueAfterBaseline(first, next, db, items, fuel, i);
    }
    if i :| 0 <= i < |items| && IsDue(next, after, items[i]) {
      DueAfterBaseline(first, next, db, items, fuel, i);
      DueIsNotSkipped(next, after, items[i]);
      SomethingDue(next, after, items, i);
    } else {
      NothingNew(next, after, items);
      NothingDetected(next, after, items);
    }
  }

  lemma DueIsNotSkipped(check: Check, db: Db, item: Item)
    requires IsDue(check, db, item)
    ensures !IsSkipped(check, item)
  {
  }
}
