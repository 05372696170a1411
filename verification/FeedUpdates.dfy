/**
  Which updates survive crashes. Notify moves a page's watermark item by item, so of two items that list the page at the
  same time the first can move it there for both. A crash right after that can cost the second its announcement; no
  other crash does that to an update.
*/
module FeedUpdates {
  import opened Common
  import opened Database
  import opened Feed
  import opened FeedFrames
  import opened FeedRecovery
  import opened FeedAnnouncements

  /** When its turn comes, Detect finds the item's page known at another time. */
  predicate IsUpdate(check: Check, db: Db, items: seq<Item>, i: nat)
    requires i < |items|
  {
    && !IsSkipped(check, items[i]) && items[i].updatedAt.Some?
    && items[i].updatedAt != StartTime(db, items, items[i].url.value)
  }

  predicate IsSamePage(items: seq<Item>, j: nat, i: nat)
    requires j < |items| && i < |items|
  {
    items[j].url == items[i].url && items[j].updatedAt.Some?
  }

  /** Item `j` comes before item `i` and moves the watermark of their page from behind to the time of both. */
  predicate Overtakes(db: Db, items: seq<Item>, j: nat, i: nat)
    requires i < |items|
  {
    && j < i && items[i].url.Some? && IsSamePage(items, j, i)
    && items[j].updatedAt == items[i].updatedAt && items[j].stableKey != items[i].stableKey
    && IsBehind(StartTime(db, items, items[i].url.value), items[i].updatedAt.value)
    && forall b :: 0 <= b < j && IsSamePage(items, b, i) ==> items[b].updatedAt.value < items[i].updatedAt.value
  }

  predicate IsOvertaken(db: Db, items: seq<Item>, i: nat)
    requires i < |items|
  {
    exists j :: 0 <= j < i && Overtakes(db, items, j, i)
  }

  // ----- where Detect leaves the watermark of a page, crash or not

  lemma {:induction false} DetectFuelDrops(check: Check, db: Db, items: seq<Item>)
    ensures DetectAll(check, db, items).0.fuel <= db.fuel
    decreases items
  {
    if items != [] {
      DetectFuelDrops(check, DetectOne(check, db, items[0]).0, items[1..]);
    }
  }

  lemma NotCreated(check: Check, db: Db, item: Item)
    requires !IsSkipped(check, item) && item.url.value !in DetectOne(check, db, item).0.targets
    ensures DetectOne(check, db, item).0.fuel == 0
  {
  }

  lemma {:induction false} DetectedAtStart(check: Check, db: Db, items: seq<Item>, url: Url)
    requires check.isAllowed(url) && url in DetectAll(check, db, items).0.targets
    ensures DetectAll(check, db, items).0.targets[url] == StartTime(db, items, url)
    decreases items
  {
    hide DetectOne;
    if items != [] {
      var first := DetectOne(check, db, items[0]).0;
      DetectOneComesFrom(check, db, items[0]);
      if url !in first.targets && items[0].url == Some(url) {
        NotCreated(check, db, items[0]);
        CrashedDetect(check, first, items[1..]);
      }
      DetectedAtStart(check, first, items[1..], url);
      StartOfRest(db, first, items, url);
    }
  }

  // ----- the entry that moves a watermark

  /**
    The first entry for the page that gets its watermark to where Notify leaves it: all before it had earlier times.
  */
  lemma {:induction false} NotifyMovesFirst(check: Check, db: Db, detected: seq<Detected>, url: Url) returns (k: nat)
    requires Inv(db) && AllOk(db, detected) && url in db.targets
    requires db.fuel > 0 ==> AllCurrent(db, detected) && AllTagged(check, detected)
    requires url in NotifyAll(check, db, detected).targets
    requires NotifyAll(check, db, detected).targets[url] != db.targets[url]
    ensures k < |detected| && detected[k].url == url && detected[k].advanceTo.Some?
    ensures detected[k].advanceTo == NotifyAll(check, db, detected).targets[url]
    ensures AnnouncedAt(NotifyAll(check, db, detected), check, detected[k].change, detected[k].row.key)
    ensures IsBehind(db.targets[url], detected[k].advanceTo.value) && db.fuel > 0
    ensures forall m :: 0 <= m < k && detected[m].url == url && detected[m].advanceTo.Some? ==>
      detected[m].advanceTo.value < detected[k].advanceTo.value
    decreases detected
  {
    hide Inv, NotifyOne, DetectedOk, AnnouncedAt, Grows, IsCurrent, IsTagged;
    var d := detected[0];
    var first := NotifyOne(check, db, d);
    var last := NotifyAll(check, first, detected[1..]);
    assert DetectedOk(db, d) && (db.fuel > 0 ==> IsCurrent(db, d) && IsTagged(check, d));
    NotifyOneKeeps(check, db, d);
    NotifyOneFrame(check, db, d, url);
    OkGrows(db, first, detected[1..]);
    CurrentWithSameChanges(db, first, detected[1..]);
    FuelNeverGrows(db, first);
    NeverBackTo(db, first, url);
    if last.targets[url] != first.targets[url] {
      var j := NotifyMovesFirst(check, first, detected[1..], url);
      k := j + 1;
      forall m | 0 <= m < k && detected[m].url == url && detected[m].advanceTo.Some?
        ensures detected[m].advanceTo.value < detected[k].advanceTo.value
      {
        assert m > 0 ==> detected[m] == detected[1..][m - 1];
      }
    } else {
      k := 0;
      NotifyOneMoves(check, db, d, url);
      NotifyAllKeeps(check, first, detected[1..]);
      NotifyAddsNone(check, first, detected[1..]);
      AnnouncedThroughNotify(check, first, last, d.change, d.row.key);
      NotifyOneMovesOn(check, db, d, url);
    }
  }

  lemma NeverBackTo(a: Db, b: Db, url: Url)
    requires Grows(a, b) && url in a.targets
    ensures url in b.targets && IsAtLeast(b.targets[url], a.targets[url])
  {
  }

  lemma NotifyOneMovesOn(check: Check, db: Db, d: Detected, url: Url)
    requires url in db.targets && url in NotifyOne(check, db, d).targets
    requires NotifyOne(check, db, d).targets[url] != db.targets[url]
    ensures d.advanceTo.Some? && IsBehind(db.targets[url], d.advanceTo.value) && db.fuel > 0
  {
    hide Fanout;
    FanoutFrame(db, d.change, Destinations(check, d.row));
  }

  predicate MovesFrom(db: Db, items: seq<Item>, item: Item, url: Url) {
    item.url == Some(url) && item.updatedAt.Some? && item.updatedAt != StartTime(db, items, url)
  }

  /**
    The item an entry comes from; the items before it that are updates of the same page have their entries before it.
  */
  lemma {:induction false} EntrySource(check: Check, db: Db, items: seq<Item>, k: nat, url: Url) returns (a: nat)
    requires Inv(db) && !check.isBaseline && check.isAllowed(url) && DetectAll(check, db, items).0.fuel > 0
    requires k < |DetectAll(check, db, items).1| && DetectAll(check, db, items).1[k].url == url
    ensures a < |items| && ComesFrom(DetectAll(check, db, items).1[k], items[a])
    ensures forall b :: 0 <= b < a && MovesFrom(db, items, items[b], url) ==>
      exists m :: 0 <= m < k && Announces(DetectAll(check, db, items).1[m], items[b])
    decreases items
  {
    hide Inv, DetectOne, ComesFrom, Announces;
    var (first, found) := DetectOne(check, db, items[0]);
    var (last, more) := DetectAll(check, first, items[1..]);
    DetectOneKeeps(check, db, items[0]);
    DetectAllKeeps(check, first, items[1..]);
    FuelNeverGrows(first, last);
    DetectOneComesFrom(check, db, items[0]);
    if k < |found| {
      a := 0;
      assert DetectAll(check, db, items).1[k] == found[k];
    } else {
      var c := EntrySource(check, first, items[1..], k - |found|, url);
      a := c + 1;
      if items[0].url == Some(url) {
        DetectOneStart(check, db, items[0]);
      }
      StartOfRest(db, first, items, url);
      forall b | 0 <= b < a && MovesFrom(db, items, items[b], url)
        ensures exists m :: 0 <= m < k && Announces(DetectAll(check, db, items).1[m], items[b])
      {
        if b == 0 {
          assert Announces((found + more)[0], items[0]);
        } else {
          assert items[1..][b - 1] == items[b] && MovesFrom(first, items[1..], items[b], url);
          var m :| 0 <= m < k - |found| && Announces(more[m], items[b]);
          assert (found + more)[|found| + m] == more[m];
        }
      }
    }
  }

  // ----- one check

  /** Where a check, cut short or not, leaves the start time of a page: where it was, or later and moved by Notify. */
  lemma StartAfter(check: Check, db: Db, items: seq<Item>, url: Url)
    requires Inv(db) && check.isAllowed(url)
    ensures var (found, detected) := DetectAll(check, db, items);
      var (tagged, classified) := ClassifyAll(check, found, detected);
      var after := NotifyAll(check, tagged, classified);
      && IsAtLeast(StartTime(after, items, url), StartTime(db, items, url))
      && (url in after.targets <==> url in tagged.targets)
      && (url in tagged.targets ==> tagged.targets[url] == StartTime(db, items, url))
      && (url !in tagged.targets ==> StartTime(after, items, url) == StartTime(db, items, url))
  {
    hide Inv, DetectAll, ClassifyAll, NotifyAll, AllOk, AllCurrent, AllTagged, Grows;
    var (found, detected) := DetectAll(check, db, items);
    var (tagged, classified) := ClassifyAll(check, found, detected);
    var after := NotifyAll(check, tagged, classified);
    ClassifyFrame(check, found, detected);
    NotifyTargets(check, tagged, classified);
    assert url in after.targets.Keys <==> url in tagged.targets.Keys;
    DetectTargets(check, db, items, url);
    ReadyToNotify(check, db, items);
    NotifyAllKeeps(check, tagged, classified);
    if url in tagged.targets {
      DetectedAtStart(check, db, items, url);
      NeverBackTo(tagged, after, url);
    } else {
      UnknownStart(db, after, items, url);
    }
  }

  lemma {:induction false} UnknownStart(a: Db, b: Db, items: seq<Item>, url: Url)
    requires url !in a.targets && url !in b.targets
    ensures StartTime(a, items, url) == StartTime(b, items, url)
  {
    if items != [] {
      UnknownStart(a, b, items[1..], url);
    }
  }

  /** If the check moves the watermark to the time of the update, the update is announced or was overtaken. */
  lemma MovedThere(check: Check, db: Db, items: seq<Item>, i: nat)
    requires Inv(db) && !check.isBaseline && i < |items| && IsUpdate(check, db, items, i)
    requires StartTime(Processed(check, db, items), items, items[i].url.value) == items[i].updatedAt
    ensures items[i].url.value in Processed(check, db, items).targets
    ensures IsAnnounced(Processed(check, db, items), check, items[i]) || IsOvertaken(db, items, i)
    ensures ClassifyAll(check, DetectAll(check, db, items).0, DetectAll(check, db, items).1).0.fuel > 0
  {
    hide Inv, DetectAll, ClassifyAll, NotifyAll, AnnouncedAt, AllOk, AllCurrent, AllTagged, StartTime, ComesFrom;
    var url := items[i].url.value;
    var (found, detected) := DetectAll(check, db, items);
    var (tagged, classified) := ClassifyAll(check, found, detected);
    var after := NotifyAll(check, tagged, classified);
    StartAfter(check, db, items, url);
    StartOfKnown(after, items, url);
    ReadyToNotify(check, db, items);
    var k := NotifyMovesFirst(check, tagged, classified, url);
    ClassifyFrame(check, found, detected);
    DetectAllKeeps(check, db, items);
    ClassifyAllKeeps(check, found, detected);
    FuelNeverGrows(found, tagged);
    assert SameButTags(detected[k], classified[k]);
    var a := EntrySource(check, db, items, k, url);
    SourceTime(detected[k], classified[k], items[a]);
    forall b | 0 <= b < a && IsSamePage(items, b, i) ensures items[b].updatedAt.value < items[i].updatedAt.value {
      if items[b].updatedAt != StartTime(db, items, url) {
        assert MovesFrom(db, items, items[b], url);
        var m :| 0 <= m < k && Announces(detected[m], items[b]);
        assert SameButTags(detected[m], classified[m]);
        AnnouncedTime(detected[m], classified[m], items[b]);
      }
    }
    assert a <= i;
    if items[a].stableKey == items[i].stableKey {
      assert AnnouncedAt(after, check, classified[k].change, DedupeKey(items[i].stableKey, items[i].updatedAt));
    } else {
      assert Overtakes(db, items, a, i);
    }
  }

  lemma StartOfKnown(db: Db, items: seq<Item>, url: Url)
    requires url in db.targets
    ensures StartTime(db, items, url) == db.targets[url]
  {
  }

  lemma SourceTime(d: Detected, e: Detected, item: Item)
    requires ComesFrom(d, item) && SameButTags(d, e) && e.advanceTo.Some?
    ensures item.url == Some(e.url) && item.updatedAt == e.advanceTo
    ensures e.row.key == DedupeKey(item.stableKey, item.updatedAt)
  {
  }

  lemma AnnouncedTime(d: Detected, e: Detected, item: Item)
    requires Announces(d, item) && SameButTags(d, e)
    ensures item.url == Some(e.url) && e.advanceTo.Some? && item.updatedAt == e.advanceTo
  {
  }

  lemma OvertakenBefore(check: Check, a: Db, b: Db, items: seq<Item>, i: nat)
    requires i < |items| && !IsSkipped(check, items[i]) && IsOvertaken(b, items, i)
    requires IsAtLeast(StartTime(b, items, items[i].url.value), StartTime(a, items, items[i].url.value))
    ensures IsOvertaken(a, items, i)
  {
    hide StartTime;
    var j :| 0 <= j < i && Overtakes(b, items, j, i);
    assert Overtakes(a, items, j, i);
  }

  /** An update that no other item overtakes stays one until it is announced: no crash makes it pass for done. */
  lemma UpdateIsNeverLost(check: Check, db: Db, items: seq<Item>, i: nat)
    requires Inv(db) && !check.isBaseline && i < |items| && IsUpdate(check, db, items, i) && !IsOvertaken(db, items, i)
    ensures var after := Processed(check, db, items);
      IsAnnounced(after, check, items[i]) || (IsUpdate(check, after, items, i) && !IsOvertaken(after, items, i))
  {
    hide Inv, IsAnnounced, StartTime, DetectAll, ClassifyAll, NotifyAll, IsOvertaken;
    var after := Processed(check, db, items);
    StartAfter(check, db, items, items[i].url.value);
    if IsOvertaken(after, items, i) {
      OvertakenBefore(check, db, after, items, i);
    }
    if StartTime(after, items, items[i].url.value) == items[i].updatedAt {
      MovedThere(check, db, items, i);
    }
  }

  // ----- any number of attempts

  lemma RefuelledUpdate(check: Check, db: Db, fuel: nat, items: seq<Item>, i: nat)
    requires i < |items|
    ensures IsUpdate(check, db.(fuel := fuel), items, i) <==> IsUpdate(check, db, items, i)
    ensures IsOvertaken(db.(fuel := fuel), items, i) <==> IsOvertaken(db, items, i)
  {
    hide StartTime;
    if items[i].url.Some? {
      RefuelledStart(db, fuel, items, items[i].url.value);
    }
    forall j | 0 <= j < i ensures Overtakes(db.(fuel := fuel), items, j, i) <==> Overtakes(db, items, j, i) {
    }
  }

  lemma {:induction false} RefuelledStart(db: Db, fuel: nat, items: seq<Item>, url: Url)
    ensures StartTime(db.(fuel := fuel), items, url) == StartTime(db, items, url)
  {
    if items != [] {
      RefuelledStart(db, fuel, items[1..], url);
    }
  }

  lemma {:induction false} RetriedKeeps(check: Check, db: Db, items: seq<Item>, fuels: seq<nat>, n: nat, i: nat)
    requires Inv(db) && !check.isBaseline && i < |items| && IsUpdate(check, db, items, i) && !IsOvertaken(db, items, i)
    requires n <= |fuels|
    ensures var after := Retried(check, db, items, fuels, n);
      IsAnnounced(after, check, items[i]) || (IsUpdate(check, after, items, i) && !IsOvertaken(after, items, i))
  {
    hide Inv, Processed, IsAnnounced, IsUpdate, IsOvertaken;
    if n > 0 {
      RetriedKeeps(check, db, items, fuels, n - 1, i);
      RetriedInv(check, db, items, fuels, n - 1);
      var before := Retried(check, db, items, fuels, n - 1);
      if IsAnnounced(before, check, items[i]) {
        AnnouncedStays(check, before, fuels[n - 1], items, items[i]);
      } else {
        RefuelKeepsInv(before, fuels[n - 1]);
        RefuelledUpdate(check, before, fuels[n - 1], items, i);
        UpdateIsNeverLost(check, before.(fuel := fuels[n - 1]), items, i);
      }
    }
  }

  /** An update is announced by the first attempt that is not cut short, if it still is one then, or before. */
  lemma LastAttemptAnnounces(check: Check, before: Db, fuel: nat, items: seq<Item>, i: nat)
    requires Inv(before) && !check.isBaseline && i < |items|
    requires IsAnnounced(before, check, items[i]) || IsUpdate(check, before, items, i)
    requires Processed(check, before.(fuel := fuel), items).fuel > 0
    ensures IsAnnounced(Processed(check, before.(fuel := fuel), items), check, items[i])
  {
    hide Inv, Processed, IsAnnounced, StartTime;
    if IsAnnounced(before, check, items[i]) {
      AnnouncedStays(check, before, fuel, items, items[i]);
    } else {
      RefuelKeepsInv(before, fuel);
      RefuelledUpdate(check, before, fuel, items, i);
      CompleteRunMoves(check, before.(fuel := fuel), items, i);
    }
  }

  /**
    However often and wherever attempts are cut short, the first that is not announces the item, if none did before.
  */
  ghost predicate SurvivesCrashes(check: Check, db: Db, items: seq<Item>, item: Item) {
    forall fuels: seq<nat> :: |fuels| > 0 && Retried(check, db, items, fuels, |fuels|).fuel > 0 ==>
      IsAnnounced(Retried(check, db, items, fuels, |fuels|), check, item)
  }

  /** An update that no other item overtakes survives all crashes: at-least-once recovery. */
  lemma UpdateSurvivesCrashes(check: Check, db: Db, items: seq<Item>, i: nat)
    requires Inv(db) && !check.isBaseline && i < |items| && IsUpdate(check, db, items, i) && !IsOvertaken(db, items, i)
    ensures SurvivesCrashes(check, db, items, items[i])
  {
    hide Inv, Processed, IsAnnounced, IsUpdate, IsOvertaken;
    forall fuels: seq<nat> | |fuels| > 0 && Retried(check, db, items, fuels, |fuels|).fuel > 0
      ensures IsAnnounced(Retried(check, db, items, fuels, |fuels|), check, items[i])
    {
      var n := |fuels| - 1;
      RetriedKeeps(check, db, items, fuels, n, i);
      RetriedInv(check, db, items, fuels, n);
      LastAttemptAnnounces(check, Retried(check, db, items, fuels, n), fuels[n], items, i);
    }
  }
}
