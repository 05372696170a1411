/**
  The updates that a crash can cost their announcement: exactly those that another item overtakes and that somebody is
  still owed. The crash that does it comes right after the watermark was moved for the other item.
*/
module FeedOvertaken {
  import opened Common
  import opened Database
  import opened Feed
  import opened FeedFrames
  import opened FeedRecovery
  import opened FeedAnnouncements
  import opened FeedUpdates

  function UpdateKey(item: Item): DedupeKey {
    DedupeKey(item.stableKey, item.updatedAt)
  }

  function WithTags(check: Check, row: Change, item: Item): Change {
    if check.classifier == None || row.tags.Some? then row else row.(tags := Some(check.classifier.value(item)))
  }

  /** The row of the update once it is tagged: the stored one if there is one. */
  function RowToBe(check: Check, db: Db, item: Item): Change
    requires item.url.Some?
  {
    match FindChange(db.changes, UpdateKey(item), 0)
    case Some(id) => WithTags(check, db.changes[id], item)
    case None => WithTags(check, Change(Updated, UpdateKey(item), item.url.value, None), item)
  }

  /** Somebody who is subscribed to the update has no delivery of it yet. */
  ghost predicate IsOwed(check: Check, db: Db, item: Item) {
    item.url.Some? &&
    var destinations := Destinations(check, RowToBe(check, db, item));
    match FindChange(db.changes, UpdateKey(item), 0)
    case Some(id) => !HasDeliveries(db, id, destinations)
    case None => destinations != []
  }

  // ----- the row of an update after Detect and Classify

  /** What Detect inserts. */
  predicate IsInsertedFor(row: Change, item: Item) {
    || row == Change(New, DedupeKey(item.stableKey, None), row.url, None)
    || row == Change(Updated, UpdateKey(item), row.url, None)
  }

  lemma DetectOneInserts(check: Check, db: Db, item: Item)
    ensures var after := DetectOne(check, db, item).0;
      && |db.changes| <= |after.changes|
      && forall id :: |db.changes| <= id < |after.changes| ==> IsInsertedFor(after.changes[id], item)
  {
  }

  lemma {:induction false} DetectInserts(check: Check, db: Db, items: seq<Item>, id: nat) returns (item: Item)
    requires |db.changes| <= id < |DetectAll(check, db, items).0.changes|
    ensures item in items && IsInsertedFor(DetectAll(check, db, items).0.changes[id], item)
    decreases items
  {
    hide DetectOne;
    var first := DetectOne(check, db, items[0]).0;
    DetectOneInserts(check, db, items[0]);
    DetectKeepsRows(check, first, items[1..]);
    if id < |first.changes| {
      item := items[0];
    } else {
      item := DetectInserts(check, first, items[1..], id);
    }
  }

  /** Tags are there already, or come from the item of an entry for the change. */
  lemma {:induction false} ClassifyTags(check: Check, db: Db, detected: seq<Detected>, id: nat)
    requires id < |db.changes|
    ensures var after := ClassifyAll(check, db, detected).0;
      && id < |after.changes| && after.changes[id] == db.changes[id].(tags := after.changes[id].tags)
      && (|| after.changes[id].tags == db.changes[id].tags
          || (db.changes[id].tags == None && check.classifier.Some?
              && exists k :: 0 <= k < |detected| && detected[k].change == id
                          && after.changes[id].tags == Some(check.classifier.value(detected[k].item))))
    decreases detected
  {
    if detected != [] {
      var first := ClassifyOne(check, db, detected[0]).0;
      var after := ClassifyAll(check, db, detected).0;
      ClassifyTags(check, first, detected[1..], id);
      if after.changes[id].tags != db.changes[id].tags {
        if first.changes[id].tags != db.changes[id].tags {
          assert detected[0].change == id;
        } else {
          var k :| 0 <= k < |detected[1..]| && detected[1..][k].change == id
                && after.changes[id].tags == Some(check.classifier.value(detected[1..][k].item));
          assert detected[k + 1].change == id && detected[k + 1].item == detected[1..][k].item;
        }
      }
    }
  }

  lemma OnlyOneItem(items: seq<Item>, i: nat, item: Item)
    requires OnlyOneHasKey(items, i) && item in items && item.stableKey == items[i].stableKey
    ensures item == items[i]
  {
    var j :| 0 <= j < |items| && items[j] == item;
  }

  /** An entry for the row of the update comes from the item. */
  lemma EntryOfUpdate(check: Check, db: Db, items: seq<Item>, i: nat, k: nat)
    requires Inv(db) && OnlyOneHasKey(items, i) && DetectAll(check, db, items).0.fuel > 0
    requires k < |DetectAll(check, db, items).1|
    requires var (found, detected) := DetectAll(check, db, items);
      detected[k].change < |found.changes| && found.changes[detected[k].change].key == UpdateKey(items[i])
    ensures DetectAll(check, db, items).1[k].item == items[i]
  {
    hide Inv, DetectAll;
    var (found, detected) := DetectAll(check, db, items);
    DetectCurrent(check, db, items);
    assert IsCurrent(found, detected[k]);
    DetectComesFrom(check, db, items, k);
    OnlyOneItem(items, i, detected[k].item);
  }

  lemma OnlyItsEntry(check: Check, db: Db, items: seq<Item>, i: nat, k: nat)
    requires Inv(db) && OnlyOneHasKey(items, i) && DetectAll(check, db, items).0.fuel > 0
    requires k < |DetectAll(check, db, items).1|
    ensures var (found, detected) := DetectAll(check, db, items);
      && detected[k].change < |found.changes| && found.changes[detected[k].change].key == UpdateKey(items[i])
      ==> detected[k].item == items[i]
  {
    hide Inv, DetectAll;
    var (found, detected) := DetectAll(check, db, items);
    if detected[k].change < |found.changes| && found.changes[detected[k].change].key == UpdateKey(items[i]) {
      EntryOfUpdate(check, db, items, i, k);
    }
  }

  /** Whatever a check still writes of the row, it has the kind and, once it has any, the tags it was to have. */
  lemma RowBecomes(check: Check, db: Db, items: seq<Item>, i: nat, id: nat)
    requires Inv(db) && OnlyOneHasKey(items, i) && items[i].url.Some? && items[i].updatedAt.Some?
    requires id < |Processed(check, db, items).changes|
    requires Processed(check, db, items).changes[id].key == UpdateKey(items[i])
    ensures var row := Processed(check, db, items).changes[id];
      Destinations(check, WithTags(check, row, items[i])) == Destinations(check, RowToBe(check, db, items[i]))
    ensures match FindChange(db.changes, UpdateKey(items[i]), 0)
      case Some(known) => id == known
      case None => id >= |db.changes|
  {
    hide Inv, DetectAll, ClassifyAll, NotifyAll;
    var item := items[i];
    var (found, detected) := DetectAll(check, db, items);
    var (tagged, classified) := ClassifyAll(check, found, detected);
    NotifyAddsNone(check, tagged, classified);
    ClassifyFrame(check, found, detected);
    DetectKeepsRows(check, db, items);
    DetectAllKeeps(check, db, items);
    RowAfterDetect(check, db, items, i, id);
    if found.fuel == 0 {
      CrashedClassify(check, found, detected);
    } else {
      ClassifyTags(check, found, detected, id);
      if tagged.changes[id].tags != found.changes[id].tags {
        var k :| 0 <= k < |detected| && detected[k].change == id
              && tagged.changes[id].tags == Some(check.classifier.value(detected[k].item));
        EntryOfUpdate(check, db, items, i, k);
      }
    }
  }

  lemma RowAfterDetect(check: Check, db: Db, items: seq<Item>, i: nat, id: nat)
    requires Inv(db) && OnlyOneHasKey(items, i) && items[i].url.Some? && items[i].updatedAt.Some?
    requires var found := DetectAll(check, db, items).0;
      id < |found.changes| && found.changes[id].key == UpdateKey(items[i])
    ensures var found := DetectAll(check, db, items).0;
      match FindChange(db.changes, UpdateKey(items[i]), 0)
      case Some(known) => id == known && found.changes[id] == db.changes[id]
      case None => id >= |db.changes| && found.changes[id].kind == Updated && found.changes[id].tags == None
  {
    hide DetectAll;
    var found := DetectAll(check, db, items).0;
    DetectKeepsRows(check, db, items);
    DetectAllKeeps(check, db, items);
    if id >= |db.changes| {
      var item := DetectInserts(check, db, items, id);
      OnlyOneItem(items, i, item);
    }
  }

  // ----- an update nobody is owed

  lemma KeyNotNew(a: Db, b: Db, key: DedupeKey)
    requires Grows(a, b)
    ensures FindChange(b.changes, key, 0) == None ==> FindChange(a.changes, key, 0) == None
  {
    var found := FindChange(a.changes, key, 0);
    if found.Some? {
      assert b.changes[found.value].key == key;
    }
  }

  lemma NotOwedStays(check: Check, db: Db, items: seq<Item>, i: nat)
    requires Inv(db) && OnlyOneHasKey(items, i) && items[i].url.Some? && items[i].updatedAt.Some?
    requires !IsOwed(check, db, items[i])
    ensures !IsOwed(check, Processed(check, db, items), items[i])
  {
    hide Inv, Processed, Destinations, WithTags, Grows;
    var after := Processed(check, db, items);
    ProcessedKeeps(check, db, items);
    match FindChange(after.changes, UpdateKey(items[i]), 0)
    case Some(id) =>
      RowBecomes(check, db, items, i, id);
      if FindChange(db.changes, UpdateKey(items[i]), 0).Some? {
        DeliveredStays(db, after, id, Destinations(check, RowToBe(check, db, items[i])));
      }
    case None =>
      KeyNotNew(db, after, UpdateKey(items[i]));
  }

  lemma DeliveredStays(a: Db, b: Db, id: nat, destinations: seq<Destination>)
    requires Grows(a, b) && HasDeliveries(a, id, destinations)
    ensures HasDeliveries(b, id, destinations)
  {
  }

  /** With writes left after Classify, the row of an update is stored and tagged. */
  lemma RowIsThere(check: Check, db: Db, items: seq<Item>, i: nat) returns (id: nat)
    requires Inv(db) && !check.isBaseline && i < |items| && IsUpdate(check, db, items, i)
    requires ClassifyAll(check, DetectAll(check, db, items).0, DetectAll(check, db, items).1).0.fuel > 0
    ensures var after := Processed(check, db, items);
      && id < |after.changes| && after.changes[id].key == UpdateKey(items[i])
      && (check.classifier.Some? ==> after.changes[id].tags.Some?)
  {
    hide Inv, DetectAll, ClassifyAll, NotifyAll, AllOk, StartTime;
    var (found, detected) := DetectAll(check, db, items);
    var (tagged, classified) := ClassifyAll(check, found, detected);
    DetectAllKeeps(check, db, items);
    ClassifyAllKeeps(check, found, detected);
    FuelNeverGrows(found, tagged);
    DetectStart(check, db, items, i);
    ReadyToNotify(check, db, items);
    ClassifyFrame(check, found, detected);
    NotifyAddsNone(check, tagged, classified);
    var k :| 0 <= k < |detected| && Announces(detected[k], items[i]);
    assert SameButTags(detected[k], classified[k]) && IsCurrent(tagged, classified[k])
      && IsTagged(check, classified[k]);
    id := classified[k].change;
  }

  lemma TaggedAndDelivered(check: Check, db: Db, item: Item, id: nat)
    requires Inv(db) && item.url.Some? && id < |db.changes| && db.changes[id].key == UpdateKey(item)
    requires (check.classifier.Some? ==> db.changes[id].tags.Some?)
    ensures IsAnnounced(db, check, item) <==> !IsOwed(check, db, item)
  {
    hide Destinations;
    var found := FindChange(db.changes, UpdateKey(item), 0);
    assert found == Some(id);
    assert RowToBe(check, db, item) == db.changes[id];
    if IsAnnounced(db, check, item) {
      var j: nat :| AnnouncedAt(db, check, j, DedupeKey(item.stableKey, item.updatedAt));
      assert j == id;
    }
    assert AnnouncedAt(db, check, id, UpdateKey(item)) <==> HasDeliveries(db, id, Destinations(check, db.changes[id]));
  }

  lemma NotOwedIsNeverLost(check: Check, db: Db, items: seq<Item>, i: nat)
    requires Inv(db) && !check.isBaseline && OnlyOneHasKey(items, i)
    requires IsUpdate(check, db, items, i) && !IsOwed(check, db, items[i])
    ensures var after := Processed(check, db, items);
      !IsOwed(check, after, items[i]) && (IsAnnounced(after, check, items[i]) || IsUpdate(check, after, items, i))
  {
    hide Inv, Processed, IsAnnounced, StartTime, IsOwed, DetectAll, ClassifyAll, IsOvertaken;
    var after := Processed(check, db, items);
    NotOwedStays(check, db, items, i);
    if StartTime(after, items, items[i].url.value) == items[i].updatedAt {
      MovedThere(check, db, items, i);
      var id := RowIsThere(check, db, items, i);
      ProcessedKeeps(check, db, items);
      TaggedAndDelivered(check, after, items[i], id);
    }
  }

  lemma RefuelledOwed(check: Check, db: Db, fuel: nat, item: Item)
    ensures IsOwed(check, db.(fuel := fuel), item) <==> IsOwed(check, db, item)
  {
  }

  lemma {:induction false} NotOwedKeeps(check: Check, db: Db, items: seq<Item>, fuels: seq<nat>, n: nat, i: nat)
    requires Inv(db) && !check.isBaseline && OnlyOneHasKey(items, i)
    requires IsUpdate(check, db, items, i) && !IsOwed(check, db, items[i]) && n <= |fuels|
    ensures var after := Retried(check, db, items, fuels, n);
      IsAnnounced(after, check, items[i]) || (IsUpdate(check, after, items, i) && !IsOwed(check, after, items[i]))
  {
    hide Inv, Processed, IsAnnounced, IsUpdate, IsOwed;
    if n > 0 {
      NotOwedKeeps(check, db, items, fuels, n - 1, i);
      RetriedInv(check, db, items, fuels, n - 1);
      var before := Retried(check, db, items, fuels, n - 1);
      if IsAnnounced(before, check, items[i]) {
        AnnouncedStays(check, before, fuels[n - 1], items, items[i]);
      } else {
        RefuelKeepsInv(before, fuels[n - 1]);
        RefuelledUpdate(check, before, fuels[n - 1], items, i);
        RefuelledOwed(check, before, fuels[n - 1], items[i]);
        NotOwedIsNeverLost(check, before.(fuel := fuels[n - 1]), items, i);
      }
    }
  }

  lemma NotOwedSurvives(check: Check, db: Db, items: seq<Item>, i: nat)
    requires Inv(db) && !check.isBaseline && OnlyOneHasKey(items, i)
    requires IsUpdate(check, db, items, i) && !IsOwed(check, db, items[i])
    ensures SurvivesCrashes(check, db, items, items[i])
  {
    hide Inv, Processed, IsAnnounced, IsUpdate, IsOwed;
    forall fuels: seq<nat> | |fuels| > 0 && Retried(check, db, items, fuels, |fuels|).fuel > 0
      ensures IsAnnounced(Retried(check, db, items, fuels, |fuels|), check, items[i])
    {
      var n := |fuels| - 1;
      NotOwedKeeps(check, db, items, fuels, n, i);
      RetriedInv(check, db, items, fuels, n);
      LastAttemptAnnounces(check, Retried(check, db, items, fuels, n), fuels[n], items, i);
    }
  }

  // ----- fewer writes

  /** With `less` writes less, if so many are left over, everything goes the same way. */
  lemma {:induction false} DetectWithLess(check: Check, db: Db, items: seq<Item>, less: nat)
    requires less <= DetectAll(check, db, items).0.fuel <= db.fuel
    ensures var (after, found) := DetectAll(check, db, items);
      DetectAll(check, db.(fuel := db.fuel - less), items) == (after.(fuel := after.fuel - less), found)
    decreases items
  {
    hide DetectOne;
    if items != [] {
      var first := DetectOne(check, db, items[0]).0;
      DetectFuelDrops(check, first, items[1..]);
      DetectOneWithLess(check, db, items[0], less);
      DetectWithLess(check, first, items[1..], less);
    }
  }

  lemma DetectOneWithLess(check: Check, db: Db, item: Item, less: nat)
    requires less <= DetectOne(check, db, item).0.fuel
    ensures DetectOne(check, db, item).0.fuel <= db.fuel
    ensures var (after, found) := DetectOne(check, db, item);
      DetectOne(check, db.(fuel := db.fuel - less), item) == (after.(fuel := after.fuel - less), found)
  {
  }

  lemma {:induction false} ClassifyFuelDrops(check: Check, db: Db, detected: seq<Detected>)
    ensures ClassifyAll(check, db, detected).0.fuel <= db.fuel <= ClassifyAll(check, db, detected).0.fuel + |detected|
    decreases detected
  {
    if detected != [] {
      ClassifyFuelDrops(check, ClassifyOne(check, db, detected[0]).0, detected[1..]);
    }
  }

  lemma {:induction false} ClassifyWithLess(check: Check, db: Db, detected: seq<Detected>, less: nat)
    requires less <= ClassifyAll(check, db, detected).0.fuel <= db.fuel
    ensures var (after, classified) := ClassifyAll(check, db, detected);
      ClassifyAll(check, db.(fuel := db.fuel - less), detected) == (after.(fuel := after.fuel - less), classified)
    decreases detected
  {
    if detected != [] {
      var first := ClassifyOne(check, db, detected[0]).0;
      ClassifyFuelDrops(check, first, detected[1..]);
      ClassifyWithLess(check, first, detected[1..], less);
    }
  }

  lemma DeliveryWithLess(db: Db, d: Delivery, less: nat)
    requires less <= AfterDelivery(db, d).fuel
    ensures AfterDelivery(db, d).fuel <= db.fuel
    ensures AfterDelivery(db.(fuel := db.fuel - less), d)
         == AfterDelivery(db, d).(fuel := AfterDelivery(db, d).fuel - less)
  {
  }

  lemma {:induction false} FanoutWithLess(db: Db, change: nat, destinations: seq<Destination>, less: nat)
    requires less <= Fanout(db, change, destinations).fuel <= db.fuel
    ensures var after := Fanout(db, change, destinations);
      Fanout(db.(fuel := db.fuel - less), change, destinations) == after.(fuel := after.fuel - less)
    decreases destinations
  {
    if destinations != [] {
      var first := AfterDelivery(db, Delivery(change, destinations[0]));
      FanoutFrame(first, change, destinations[1..]);
      DeliveryWithLess(db, Delivery(change, destinations[0]), less);
      hide AfterDelivery;
      FanoutWithLess(first, change, destinations[1..], less);
    }
  }

  lemma NotifyOneWithLess(check: Check, db: Db, d: Detected, less: nat)
    requires less <= NotifyOne(check, db, d).fuel
    ensures NotifyOne(check, db, d).fuel <= db.fuel
    ensures NotifyOne(check, db.(fuel := db.fuel - less), d)
         == NotifyOne(check, db, d).(fuel := NotifyOne(check, db, d).fuel - less)
  {
    hide Fanout;
    FanoutFrame(db, d.change, Destinations(check, d.row));
    FanoutWithLess(db, d.change, Destinations(check, d.row), less);
  }

  lemma {:induction false} NotifyWithLess(check: Check, db: Db, detected: seq<Detected>, less: nat)
    requires less <= NotifyAll(check, db, detected).fuel <= db.fuel
    ensures var after := NotifyAll(check, db, detected);
      NotifyAll(check, db.(fuel := db.fuel - less), detected) == after.(fuel := after.fuel - less)
    decreases detected
  {
    hide NotifyOne;
    if detected != [] {
      var first := NotifyOne(check, db, detected[0]);
      NotifyFuelDrops(check, first, detected[1..]);
      NotifyOneWithLess(check, db, detected[0], less);
      NotifyWithLess(check, first, detected[1..], less);
    }
  }

  // ----- enough writes

  lemma {:induction false} DetectCost(check: Check, db: Db, items: seq<Item>)
    ensures var (after, found) := DetectAll(check, db, items);
      db.fuel <= after.fuel + 2 * |items| && |found| <= |items|
    decreases items
  {
    if items != [] {
      DetectCost(check, DetectOne(check, db, items[0]).0, items[1..]);
    }
  }

  function NotifyCost(check: Check, detected: seq<Detected>): nat {
    if detected == [] then 0 else 2 * |Destinations(check, detected[0].row)| + 1 + NotifyCost(check, detected[1..])
  }

  lemma {:induction false} FanoutCosts(db: Db, change: nat, destinations: seq<Destination>)
    ensures db.fuel <= Fanout(db, change, destinations).fuel + 2 * |destinations|
    decreases destinations
  {
    if destinations != [] {
      FanoutCosts(AfterDelivery(db, Delivery(change, destinations[0])), change, destinations[1..]);
    }
  }

  lemma {:induction false} NotifyCosts(check: Check, db: Db, detected: seq<Detected>)
    ensures db.fuel <= NotifyAll(check, db, detected).fuel + NotifyCost(check, detected)
    decreases detected
  {
    if detected != [] {
      FanoutCosts(db, detected[0].change, Destinations(check, detected[0].row));
      NotifyCosts(check, NotifyOne(check, db, detected[0]), detected[1..]);
    }
  }

  /** Some number of writes is enough for the whole check, from any state of the tables. */
  lemma EnoughWrites(check: Check, db: Db, items: seq<Item>) returns (fuel: nat)
    ensures Processed(check, db.(fuel := fuel), items).fuel > 0
  {
    hide DetectAll, ClassifyAll, NotifyAll, NotifyCost;
    var few := db.(fuel := 3 * |items|);
    var (found, detected) := DetectAll(check, few, items);
    var (tagged, classified) := ClassifyAll(check, found, detected);
    var rest := NotifyCost(check, classified) + 1;
    fuel := 3 * |items| + rest;
    var many := db.(fuel := fuel);
    DetectCost(check, few, items);
    DetectCost(check, many, items);
    var (manyFound, manyDetected) := DetectAll(check, many, items);
    DetectFuelDrops(check, many, items);
    assert many.(fuel := many.fuel - rest) == few;
    DetectWithLess(check, many, items, rest);
    ClassifyFuelDrops(check, manyFound, manyDetected);
    assert manyFound.(fuel := manyFound.fuel - rest) == found;
    ClassifyWithLess(check, manyFound, manyDetected, rest);
    NotifyCosts(check, ClassifyAll(check, manyFound, manyDetected).0, classified);
  }

  // ----- the crash after the overtaker

  lemma {:induction false} ListedBefore(db: Db, items: seq<Item>, j: nat, url: Url) returns (b: nat)
    requires url !in db.targets && j < |items| && items[j].url == Some(url)
    requires items[j].updatedAt != StartTime(db, items, url)
    ensures b < j && items[b].url == Some(url)
  {
    if items[0].url == Some(url) {
      b := 0;
    } else {
      var c := ListedBefore(db, items[1..], j - 1, url);
      b := c + 1;
    }
  }

  lemma {:induction false} StartOfPrefix(db: Db, items: seq<Item>, n: nat, url: Url)
    requires n <= |items| && (url in db.targets || exists b :: 0 <= b < n && items[b].url == Some(url))
    ensures StartTime(db, items[..n], url) == StartTime(db, items, url)
  {
    if url !in db.targets && items[0].url != Some(url) {
      assert items[..n][1..] == items[1..][..n - 1];
      var b :| 0 <= b < n && items[b].url == Some(url);
      assert items[1..][b - 1].url == Some(url);
      StartOfPrefix(db, items[1..], n - 1, url);
    }
  }

  /** At its turn, an item with another time than the start finds the page at the start time. */
  lemma AtStartInTurn(check: Check, db: Db, items: seq<Item>, j: nat)
    requires Inv(db) && !check.isBaseline && j < |items| && IsUpdate(check, db, items, j)
    requires AtTurn(check, db, items, j).fuel > 0
    ensures var at := AtTurn(check, db, items, j); var url := items[j].url.value;
      url in at.targets && at.targets[url] == StartTime(db, items, url)
  {
    hide Inv, DetectAll;
    var url := items[j].url.value;
    if url in db.targets {
      DetectTargets(check, db, items[..j], url);
    } else {
      var b := ListedBefore(db, items, j, url);
      assert items[..j][b] == items[b];
      DetectStart(check, db, items[..j], b);
      StartOfPrefix(db, items, j, url);
    }
  }

  /** A watermark that is behind stays so while Notify goes through entries of earlier times. */
  lemma {:induction false} StaysBehind(check: Check, db: Db, detected: seq<Detected>, url: Url, t: Time)
    requires url in db.targets && IsBehind(db.targets[url], t)
    requires forall m :: 0 <= m < |detected| && detected[m].url == url && detected[m].advanceTo.Some? ==>
      detected[m].advanceTo.value < t
    ensures var after := NotifyAll(check, db, detected); url in after.targets && IsBehind(after.targets[url], t)
    decreases detected
  {
    hide NotifyOne;
    if detected != [] {
      OneStaysBehind(check, db, detected[0], url, t);
      StaysBehind(check, NotifyOne(check, db, detected[0]), detected[1..], url, t);
    }
  }

  lemma OneStaysBehind(check: Check, db: Db, d: Detected, url: Url, t: Time)
    requires url in db.targets && IsBehind(db.targets[url], t)
    requires d.url == url && d.advanceTo.Some? ==> d.advanceTo.value < t
    ensures var after := NotifyOne(check, db, d); url in after.targets && IsBehind(after.targets[url], t)
  {
    hide Fanout;
    FanoutFrame(db, d.change, Destinations(check, d.row));
  }

  lemma MovesOn(check: Check, db: Db, d: Detected)
    requires d.url in db.targets && d.advanceTo.Some? && IsBehind(db.targets[d.url], d.advanceTo.value)
    requires NotifyOne(check, db, d).fuel > 0
    ensures d.url in NotifyOne(check, db, d).targets && NotifyOne(check, db, d).targets[d.url] == d.advanceTo
  {
    hide Fanout;
    FanoutFrame(db, d.change, Destinations(check, d.row));
  }

  /** The entries of the first items of a check, and how far Notify is with them. */
  function Upto(check: Check, db: Db, items: seq<Item>, n: nat): (Db, seq<Detected>)
    requires n <= |items|
  {
    var (found, detected) := DetectAll(check, db, items);
    var tagged := ClassifyAll(check, found, detected).0;
    var classified := ClassifyAll(check, found, DetectAll(check, db, items[..n]).1).1;
    (NotifyAll(check, tagged, classified), classified)
  }

  lemma CheckFrom(check: Check, db: Db, items: seq<Item>, n: nat) returns (rest: seq<Detected>)
    requires n <= |items|
    ensures var (found, detected) := DetectAll(check, db, items);
      var (tagged, classified) := ClassifyAll(check, found, detected);
      && Processed(check, db, items) == NotifyAll(check, Upto(check, db, items, n).0, rest)
      && classified == Upto(check, db, items, n).1 + rest
      && detected[..|Upto(check, db, items, n).1|] == DetectAll(check, db, items[..n]).1
      && |DetectAll(check, db, items[..n]).1| == |Upto(check, db, items, n).1| <= |detected|
  {
    hide DetectAll, ClassifyAll, NotifyAll;
    assert items == items[..n] + items[n..];
    DetectConcat(check, db, items[..n], items[n..]);
    var (first, a) := DetectAll(check, db, items[..n]);
    var b := DetectAll(check, first, items[n..]).1;
    var found := DetectAll(check, db, items).0;
    ClassifyConcat(check, found, a, b);
    var (mid, c) := ClassifyAll(check, found, a);
    rest := ClassifyAll(check, mid, b).1;
    NotifyConcat(check, ClassifyAll(check, found, a + b).0, c, rest);
  }

  /** The same check with just the writes that bring it so far. */
  lemma CrashAfter(check: Check, db: Db, items: seq<Item>, n: nat)
    requires n <= |items| && Upto(check, db, items, n).0.fuel <= db.fuel
    ensures var so := Upto(check, db, items, n).0;
      Processed(check, db.(fuel := db.fuel - so.fuel), items) == so.(fuel := 0)
  {
    hide DetectAll, ClassifyAll, NotifyAll;
    var so := Upto(check, db, items, n).0;
    var less := so.fuel;
    var rest := CheckFrom(check, db, items, n);
    var (found, detected) := DetectAll(check, db, items);
    var (tagged, classified) := ClassifyAll(check, found, detected);
    var c := Upto(check, db, items, n).1;
    NotifyFuelDrops(check, tagged, c);
    ClassifyFuelDrops(check, found, detected);
    DetectFuelDrops(check, db, items);
    DetectWithLess(check, db, items, less);
    ClassifyWithLess(check, found, detected, less);
    NotifyWithLess(check, tagged, c, less);
    NotifyConcat(check, tagged.(fuel := tagged.fuel - less), c, rest);
    CrashedNotify(check, so.(fuel := 0), rest);
  }

  /** The turn of the overtaker in Detect and in Notify: the page's watermark is moved to the time of both items. */
  lemma OvertakerMoves(check: Check, db: Db, items: seq<Item>, j: nat, i: nat)
    requires Inv(db) && !check.isBaseline && i < |items| && IsUpdate(check, db, items, i) && Overtakes(db, items, j, i)
    requires Processed(check, db, items).fuel > 0
    ensures var so := Upto(check, db, items, j + 1).0;
      && so.fuel > 0 && items[i].url.value in so.targets && so.targets[items[i].url.value] == items[i].updatedAt
    ensures ClassifyAll(check, DetectAll(check, db, items).0, DetectAll(check, db, items).1).0.fuel > 0
  {
    hide Inv, DetectAll, DetectOne, ClassifyAll, NotifyAll, NotifyOne, StartTime;
    var url, t := items[i].url.value, items[i].updatedAt.value;
    var (found, detected) := DetectAll(check, db, items);
    var (tagged, classified) := ClassifyAll(check, found, detected);
    var rest := CheckFrom(check, db, items, j + 1);
    var so := Upto(check, db, items, j + 1).0;
    NotifyFuelDrops(check, so, rest);
    NotifyFuelDrops(check, tagged, Upto(check, db, items, j + 1).1);
    ClassifyFuelDrops(check, found, detected);
    var (f0, d0) := DetectAll(check, db, items[..j]);
    var (f1, e) := DetectOne(check, f0, items[j]);
    EntryInTurn(check, db, items, j);
    var (mid, c0) := ClassifyAll(check, found, d0);
    var c := ClassifyAll(check, mid, e).1;
    ClassifyConcat(check, found, d0, e);
    ClassifyFrame(check, found, d0);
    ClassifyFrame(check, mid, e);
    ClassifyFrame(check, found, detected);
    assert SameButTags(e[0], c[0]) && c == [c[0]];
    AnnouncedTime(e[0], c[0], items[j]);
    NotifyConcat(check, tagged, c0, c);
    OneEntry(check, NotifyAll(check, tagged, c0), c[0]);
    DetectStart(check, db, items, j);
    forall m | 0 <= m < |c0| && c0[m].url == url && c0[m].advanceTo.Some? ensures c0[m].advanceTo.value < t {
      assert SameButTags(d0[m], c0[m]);
      DetectComesFrom(check, db, items[..j], m);
      ItemOfEntry(d0[m], c0[m]);
      var b :| 0 <= b < |items[..j]| && items[..j][b] == d0[m].item;
      assert IsSamePage(items, b, i);
    }
    StaysBehind(check, tagged, c0, url, t);
    MovesOn(check, NotifyAll(check, tagged, c0), c[0]);
  }

  lemma OneEntry(check: Check, db: Db, d: Detected)
    ensures NotifyAll(check, db, [d]) == NotifyOne(check, db, d)
  {
    assert [d][1..] == [];
  }

  /** An update's own entry, at its turn. */
  lemma EntryInTurn(check: Check, db: Db, items: seq<Item>, j: nat)
    requires Inv(db) && !check.isBaseline && j < |items| && IsUpdate(check, db, items, j)
    requires DetectAll(check, db, items).0.fuel > 0
    ensures var (f0, d0) := DetectAll(check, db, items[..j]); var (f1, e) := DetectOne(check, f0, items[j]);
      && |e| == 1 && Announces(e[0], items[j]) && DetectAll(check, db, items[..j + 1]).1 == d0 + e
  {
    hide Inv, DetectOne, StartTime;
    var (f0, d0) := DetectAll(check, db, items[..j]);
    var (f1, e) := DetectOne(check, f0, items[j]);
    assert items[..j + 1] == items[..j] + [items[j]] && items == items[..j] + ([items[j]] + items[j + 1..]);
    DetectHead(check, f0, items[j], []);
    DetectHead(check, f0, items[j], items[j + 1..]);
    assert [items[j]] + [] == [items[j]] && DetectAll(check, f1, []) == (f1, []) && e + [] == e;
    hide DetectAll;
    DetectConcat(check, db, items[..j], [items[j]]);
    DetectConcat(check, db, items[..j], [items[j]] + items[j + 1..]);
    DetectFuelDrops(check, f1, items[j + 1..]);
    DetectAllKeeps(check, db, items[..j]);
    DetectOneKeeps(check, f0, items[j]);
    FuelNeverGrows(f0, f1);
    AtStartInTurn(check, db, items, j);
    DetectOneStart(check, f0, items[j]);
  }

  lemma {:induction false} DetectSendsNothing(check: Check, db: Db, items: seq<Item>)
    ensures DetectAll(check, db, items).0.deliveries == db.deliveries
    decreases items
  {
    if items != [] {
      DetectSendsNothing(check, DetectOne(check, db, items[0]).0, items[1..]);
    }
  }

  /** Up to the overtaker nothing has been done about the update. */
  lemma NotYetNotified(check: Check, db: Db, items: seq<Item>, n: nat, i: nat, id: nat)
    requires Inv(db) && !check.isBaseline && OnlyOneHasKey(items, i) && n <= i
    requires ClassifyAll(check, DetectAll(check, db, items).0, DetectAll(check, db, items).1).0.fuel > 0
    requires id < |Processed(check, db, items).changes|
    requires Processed(check, db, items).changes[id].key == UpdateKey(items[i])
    ensures var so := Upto(check, db, items, n).0;
      && id < |so.changes| && so.changes == Processed(check, db, items).changes && Inv(so)
      && forall d :: Delivery(id, d) in so.deliveries <==> Delivery(id, d) in db.deliveries
  {
    hide Inv, DetectAll, ClassifyAll, NotifyAll, AllOk;
    var (found, detected) := DetectAll(check, db, items);
    var (tagged, classified) := ClassifyAll(check, found, detected);
    var (so, c) := Upto(check, db, items, n);
    var rest := CheckFrom(check, db, items, n);
    NotifyAddsNone(check, tagged, c);
    NotifyAddsNone(check, so, rest);
    ClassifyFrame(check, found, detected);
    ClassifyFuelDrops(check, found, detected);
    DetectSendsNothing(check, db, items);
    ReadyToNotify(check, db, items);
    OkOfEach(tagged, classified);
    NotListedBefore(items, n, i);
    forall k | 0 <= k < |c| ensures c[k].change != id && DetectedOk(tagged, c[k]) {
      assert c[k] == classified[k] && DetectedOk(tagged, classified[k]);
      assert SameButTags(detected[k], classified[k]);
      DetectComesFrom(check, db, items[..n], k);
      assert detected[k].item in items[..n];
      OnlyItsEntry(check, db, items, i, k);
    }
    OkFromEach(tagged, c);
    NotifyAllKeeps(check, tagged, c);
    NotifySameFor(check, tagged, c, id);
    SameDeliveries(tagged, so, id);
  }

  lemma NotListedBefore(items: seq<Item>, n: nat, i: nat)
    requires OnlyOneHasKey(items, i) && n <= i
    ensures items[i] !in items[..n]
  {
    forall b | 0 <= b < n ensures items[..n][b] != items[i] {
      assert items[b].stableKey != items[i].stableKey;
    }
  }

  lemma OkOfEach(db: Db, detected: seq<Detected>)
    requires AllOk(db, detected)
    ensures forall k :: 0 <= k < |detected| ==> DetectedOk(db, detected[k])
  {
  }

  lemma OkFromEach(db: Db, detected: seq<Detected>)
    requires forall k :: 0 <= k < |detected| ==> DetectedOk(db, detected[k])
    ensures AllOk(db, detected)
  {
  }

  lemma SameDeliveries(a: Db, b: Db, id: nat)
    requires SameFor(a, b, id)
    ensures forall d :: Delivery(id, d) in b.deliveries <==> Delivery(id, d) in a.deliveries
  {
    forall d | Delivery(id, d) in b.deliveries ensures Delivery(id, d) in a.deliveries {
      var k :| 0 <= k < |b.deliveries| && b.deliveries[k] == Delivery(id, d);
      assert k < |a.deliveries|;
    }
  }

  /** Somebody is owed the update, and the row is as it is to be: so it is not announced. */
  lemma StillOwed(check: Check, db: Db, b: Db, item: Item, id: nat)
    requires Inv(db) && Inv(b) && IsOwed(check, db, item) && id < |b.changes| && b.changes[id].key == UpdateKey(item)
    requires forall d :: Delivery(id, d) in b.deliveries <==> Delivery(id, d) in db.deliveries
    requires Destinations(check, b.changes[id]) == Destinations(check, RowToBe(check, db, item))
    requires match FindChange(db.changes, UpdateKey(item), 0)
      case Some(known) => id == known
      case None => id >= |db.changes|
    ensures !IsAnnounced(b, check, item)
  {
    hide Destinations, RowToBe;
    var destinations := Destinations(check, b.changes[id]);
    var found := FindChange(db.changes, UpdateKey(item), 0);
    if found.Some? {
      var d :| d in destinations && Delivery(id, d) !in db.deliveries;
      assert Delivery(id, d) !in b.deliveries;
    } else {
      assert Delivery(id, destinations[0]) !in db.deliveries;
      assert Delivery(id, destinations[0]) !in b.deliveries;
    }
    assert !HasDeliveries(b, id, destinations);
    OnlyOneRow(b, check, item, id);
  }

  /** In the next check no item brings anything for the update. */
  lemma NobodyBringsIt(check: Check, b: Db, items: seq<Item>, i: nat, id: nat)
    requires Inv(b) && OnlyOneHasKey(items, i) && !IsSkipped(check, items[i]) && !IsAnnounced(b, check, items[i])
    requires id < |b.changes| && b.changes[id].key == UpdateKey(items[i])
    requires items[i].url.value in b.targets && b.targets[items[i].url.value] == items[i].updatedAt
    ensures !IsAnnounced(Processed(check, b, items), check, items[i])
  {
    hide Inv, Processed, SameFor;
    forall x | 0 <= x < |items| ensures CannotBring(check, b, items[x], b.changes[id].key) {
    }
    CheckSameFor(check, b, items, id);
    ProcessedKeeps(check, b, items);
    var after := Processed(check, b, items);
    RowThere(b, after, id);
    SameDeliveries(b, after, id);
    OnlyOneRow(after, check, items[i], id);
    OnlyOneRow(b, check, items[i], id);
    WasAnnounced(check, b, after, id, UpdateKey(items[i]));
  }

  lemma WasAnnounced(check: Check, a: Db, b: Db, id: nat, key: DedupeKey)
    requires id < |a.changes| && id < |b.changes| && b.changes[id] == a.changes[id]
    requires forall d :: Delivery(id, d) in b.deliveries <==> Delivery(id, d) in a.deliveries
    ensures AnnouncedAt(b, check, id, key) <==> AnnouncedAt(a, check, id, key)
  {
    hide Destinations;
  }

  lemma OnlyOneRow(db: Db, check: Check, item: Item, id: nat)
    requires Inv(db) && id < |db.changes| && db.changes[id].key == UpdateKey(item)
    ensures IsAnnounced(db, check, item) <==> AnnouncedAt(db, check, id, UpdateKey(item))
  {
    hide Destinations;
    if j: nat :| AnnouncedAt(db, check, j, DedupeKey(item.stableKey, item.updatedAt)) {
      assert j == id;
    }
  }

  /** The crash right after the overtaker's turn in Notify, and a complete check that passes the update over. */
  lemma OvertakenIsLost(check: Check, db: Db, items: seq<Item>, j: nat, i: nat) returns (fuels: seq<nat>)
    requires Inv(db) && !check.isBaseline && OnlyOneHasKey(items, i) && IsUpdate(check, db, items, i)
    requires Overtakes(db, items, j, i) && IsOwed(check, db, items[i])
    ensures |fuels| == 2 && Retried(check, db, items, fuels, 2).fuel > 0
    ensures !IsAnnounced(Retried(check, db, items, fuels, 2), check, items[i])
  {
    hide Inv, Processed, IsAnnounced, IsUpdate, IsOwed, Overtakes, Upto, DetectAll, ClassifyAll;
    OvertakerIsBefore(db, items, j, i);
    var enough := EnoughWrites(check, db, items);
    var full := db.(fuel := enough);
    RefuelKeepsInv(db, enough);
    RefuelledUpdate(check, db, enough, items, i);
    RefuelledOvertaker(db, enough, items, j, i);
    RefuelledOwed(check, db, enough, items[i]);
    OvertakerMoves(check, full, items, j, i);
    var so := Upto(check, full, items, j + 1).0;
    var id := RowIsThere(check, full, items, i);
    NotYetNotified(check, full, items, j + 1, i, id);
    UpdateHasTime(check, db, items, i);
    RowBecomes(check, full, items, i, id);
    TaggedIsDone(check, so.changes[id], items[i]);
    StillOwed(check, full, so, items[i], id);
    UptoDrops(check, full, items, j + 1);
    CrashAfter(check, full, items, j + 1);
    var again := EnoughWrites(check, so, items);
    fuels := [enough - so.fuel, again];
    assert full.(fuel := enough - so.fuel) == db.(fuel := fuels[0]);
    assert Retried(check, db, items, fuels, 0) == db;
    assert Retried(check, db, items, fuels, 1) == so.(fuel := 0);
    assert Retried(check, db, items, fuels, 2) == Processed(check, so.(fuel := again), items);
    RefuelKeepsInv(so, again);
    RefuelledAnnounced(so, again, check, items[i]);
    NobodyBringsIt(check, so.(fuel := again), items, i, id);
  }

  lemma UptoDrops(check: Check, db: Db, items: seq<Item>, n: nat)
    requires n <= |items|
    ensures Upto(check, db, items, n).0.fuel <= db.fuel
  {
    hide DetectAll, ClassifyAll, NotifyAll;
    var (found, detected) := DetectAll(check, db, items);
    NotifyFuelDrops(check, ClassifyAll(check, found, detected).0, Upto(check, db, items, n).1);
    ClassifyFuelDrops(check, found, detected);
    DetectFuelDrops(check, db, items);
  }

  lemma RefuelledAnnounced(db: Db, fuel: nat, check: Check, item: Item)
    ensures IsAnnounced(db.(fuel := fuel), check, item) <==> IsAnnounced(db, check, item)
  {
    var key := DedupeKey(item.stableKey, item.updatedAt);
    assert forall id: nat :: AnnouncedAt(db.(fuel := fuel), check, id, key) <==> AnnouncedAt(db, check, id, key);
  }

  lemma RefuelledOvertaker(db: Db, fuel: nat, items: seq<Item>, j: nat, i: nat)
    requires i < |items| && Overtakes(db, items, j, i)
    ensures Overtakes(db.(fuel := fuel), items, j, i)
  {
    hide StartTime;
    RefuelledStart(db, fuel, items, items[i].url.value);
  }

  lemma OvertakerIsBefore(db: Db, items: seq<Item>, j: nat, i: nat)
    requires i < |items| && Overtakes(db, items, j, i)
    ensures j < i
  {
  }

  lemma UpdateHasTime(check: Check, db: Db, items: seq<Item>, i: nat)
    requires i < |items| && IsUpdate(check, db, items, i)
    ensures !IsSkipped(check, items[i]) && items[i].url.Some? && items[i].updatedAt.Some?
  {
  }

  lemma TaggedIsDone(check: Check, row: Change, item: Item)
    requires check.classifier.Some? ==> row.tags.Some?
    ensures WithTags(check, row, item) == row
  {
  }

  // ----- the exact condition

  /**
    An update survives all crashes exactly if no other item overtakes it, or nobody is owed it any more. Items of the
    same page at other times do no harm.
  */
  lemma UpdateSurvivesExactly(check: Check, db: Db, items: seq<Item>, i: nat)
    requires Inv(db) && !check.isBaseline && OnlyOneHasKey(items, i) && IsUpdate(check, db, items, i)
    ensures SurvivesCrashes(check, db, items, items[i])
       <==> !IsOvertaken(db, items, i) || !IsOwed(check, db, items[i])
  {
    hide Inv, SurvivesCrashes, IsUpdate, IsOwed, Overtakes, Retried;
    if !IsOwed(check, db, items[i]) {
      NotOwedSurvives(check, db, items, i);
    } else if j :| 0 <= j < i && Overtakes(db, items, j, i) {
      var fuels := OvertakenIsLost(check, db, items, j, i);
      DoesNotSurvive(check, db, items, items[i], fuels);
    } else {
      UpdateSurvivesCrashes(check, db, items, i);
    }
  }

  lemma DoesNotSurvive(check: Check, db: Db, items: seq<Item>, item: Item, fuels: seq<nat>)
    requires |fuels| > 0 && Retried(check, db, items, fuels, |fuels|).fuel > 0
    requires !IsAnnounced(Retried(check, db, items, fuels, |fuels|), check, item)
    ensures !SurvivesCrashes(check, db, items, item)
  {
  }

  // ----- one that is lost

  /**
    Two entries of one page at one time, both new to it. The crash comes after the watermark was moved for the first:
    both changes are stored, nobody was told of the second, and no later check finds anything to do.
  */
  lemma OvertakenUpdateIsLost(check: Check, fuel: nat)
    requires !check.isBaseline && check.isAllowed("u") && check.classifier == None
    requires check.matching(Updated, []) == ["d"]
    ensures var items := [Item(Some("u"), "a", Some(5)), Item(Some("u"), "b", Some(5))];
      var start := EMPTY.(targets := map["u" := Some(1)], fuel := 5);
      var crashed := Processed(check, start, items);
      && Inv(start) && IsDue(check, start, items[0]) && IsDue(check, start, items[1])
      && |crashed.changes| == 2 && crashed.changes[1].key == UpdateKey(items[1])
      && crashed.deliveries == [Delivery(0, "d")] && crashed.targets == map["u" := Some(5)]
      && Processed(check, crashed.(fuel := fuel), items) == crashed.(fuel := fuel)
      && !IsAnnounced(crashed.(fuel := fuel), check, items[1])
  {
    hide Processed, DetectAll, DetectOne, AnnouncedAt;
    var items := [Item(Some("u"), "a", Some(5)), Item(Some("u"), "b", Some(5))];
    var start := EMPTY.(targets := map["u" := Some(1)], fuel := 5);
    var crashed := Processed(check, start, items);
    CrashedThere(check);
    var again := crashed.(fuel := fuel);
    NothingNew(check, again, items);
    NothingDetected(check, again, items);
    MissesOne(check, again, 1, UpdateKey(items[1]), "d");
    OnlyOneRow(again, check, items[1], 1);
  }

  lemma MissesOne(check: Check, db: Db, id: nat, key: DedupeKey, d: Destination)
    requires id < |db.changes| && Destinations(check, db.changes[id]) == [d] && Delivery(id, d) !in db.deliveries
    ensures !AnnouncedAt(db, check, id, key)
  {
    assert [d][0] == d;
  }

  lemma CrashedThere(check: Check)
    requires !check.isBaseline && check.isAllowed("u") && check.classifier == None
    requires check.matching(Updated, []) == ["d"]
    ensures var items := [Item(Some("u"), "a", Some(5)), Item(Some("u"), "b", Some(5))];
      var a := Change(Updated, UpdateKey(items[0]), "u", None);
      var b := Change(Updated, UpdateKey(items[1]), "u", None);
      Processed(check, EMPTY.(targets := map["u" := Some(1)], fuel := 5), items)
      == Db(map["u" := Some(5)], [a, b], [Delivery(0, "d")], [0], 0)
  {
    var items := [Item(Some("u"), "a", Some(5)), Item(Some("u"), "b", Some(5))];
    var a, b := Change(Updated, UpdateKey(items[0]), "u", None), Change(Updated, UpdateKey(items[1]), "u", None);
    var start := EMPTY.(targets := map["u" := Some(1)], fuel := 5);
    var found := Db(map["u" := Some(1)], [a, b], [], [], 3);
    var d, e := Detected("u", 0, a, true, Some(5), items[0]), Detected("u", 1, b, true, Some(5), items[1]);
    assert DetectAll(check, start, items) == (found, [d, e]) by {
      var first := Db(map["u" := Some(1)], [a], [], [], 4);
      assert [] + [a] == [a];
      assert DetectOne(check, start, items[0]) == (first, [d]);
      assert FindChange([a], UpdateKey(items[1]), 0) == None;
      assert [a] + [b] == [a, b];
      assert DetectOne(check, first, items[1]) == (found, [e]);
      assert items[1..] == [items[1]] && [items[1]][1..] == [];
      assert [e] + [] == [e] && [d] + [e] == [d, e];
    }
    var last := Db(map["u" := Some(5)], [a, b], [Delivery(0, "d")], [0], 0);
    assert NotifyOne(check, found, d) == last by {
      assert Destinations(check, a) == ["d"] && ["d"][1..] == [];
    }
    hide DetectAll, NotifyOne;
    NoClassifier(check, found, [d, e]);
    assert [d, e][1..] == [e];
    CrashedNotify(check, last, [e]);
  }
}
