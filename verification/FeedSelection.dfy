/**
  Which pages a feed check deals with and whom it tells. A page that may not be fetched leaves no trace, every other
  page that is listed is registered, and a change that a check adds goes to exactly the destinations subscribed to its
  kind and its tags.
*/
module FeedSelection {
  import opened Common
  import opened Database
  import opened Feed
  import opened FeedFrames
  import opened FeedRecovery
  import opened FeedNewItems

  // ----- pages that are left out

  /** The items with a URL that may be fetched. */
  function Admitted(check: Check, items: seq<Item>): seq<Item> {
    if items == [] then []
    else
      (if items[0].url.Some? && check.isAllowed(items[0].url.value) then [items[0]] else [])
      + Admitted(check, items[1..])
  }

  lemma {:induction false} AdmittedAre(check: Check, items: seq<Item>, item: Item)
    ensures item in Admitted(check, items) <==>
      item in items && item.url.Some? && check.isAllowed(item.url.value)
  {
    if items != [] {
      AdmittedAre(check, items[1..], item);
      assert items == [items[0]] + items[1..];
    }
  }

  lemma {:induction false} DetectAdmitted(check: Check, db: Db, items: seq<Item>)
    ensures DetectAll(check, db, items) == DetectAll(check, db, Admitted(check, items))
    decreases items
  {
    if items != [] {
      var rest := items[1..];
      if items[0].url.Some? && check.isAllowed(items[0].url.value) {
        DetectAdmitted(check, DetectOne(check, db, items[0]).0, rest);
        assert Admitted(check, items)[1..] == Admitted(check, rest);
      } else {
        assert DetectOne(check, db, items[0]) == (db, []);
        DetectAdmitted(check, db, rest);
        assert [] + DetectAll(check, db, rest).1 == DetectAll(check, db, rest).1;
        assert [] + Admitted(check, rest) == Admitted(check, rest);
      }
    }
  }

  /** A check goes, crash or not, as if the items without a URL or with a refused one were not there. */
  lemma RefusedLeaveNoTrace(check: Check, db: Db, items: seq<Item>)
    ensures Processed(check, db, items) == Processed(check, db, Admitted(check, items))
    ensures Reported(check, db, items) == Reported(check, db, Admitted(check, items))
  {
    hide DetectAll, ClassifyAll, NotifyAll, Admitted;
    DetectAdmitted(check, db, items);
  }

  /** A page that no item lists keeps its target and watermark, or the lack of one. */
  lemma UnlistedStays(check: Check, db: Db, items: seq<Item>, url: Url)
    requires forall item :: item in items ==> item.url != Some(url)
    ensures var after := Processed(check, db, items);
      && (url in after.targets <==> url in db.targets)
      && (url in db.targets ==> after.targets[url] == db.targets[url])
  {
    hide DetectAll, ClassifyAll, NotifyAll, ComesFrom;
    var (found, detected) := DetectAll(check, db, items);
    var (tagged, classified) := ClassifyAll(check, found, detected);
    var after := NotifyAll(check, tagged, classified);
    DetectTargets(check, db, items, url);
    ClassifyFrame(check, found, detected);
    NotifyTargets(check, tagged, classified);
    assert url in after.targets.Keys <==> url in tagged.targets.Keys;
    if url in db.targets && after.targets[url] != tagged.targets[url] {
      var k := NotifyMovedBy(check, tagged, classified, url);
      DetectComesFrom(check, db, items, k);
      assert SameButTags(detected[k], classified[k]);
      ItemOfEntry(detected[k], classified[k]);
      assert false;
    }
  }

  /** So a check neither registers a refused page nor moves the watermark of one. */
  lemma RefusedStaysAsItIs(check: Check, db: Db, items: seq<Item>, url: Url)
    requires !check.isAllowed(url)
    ensures var after := Processed(check, db, items);
      && (url in after.targets <==> url in db.targets)
      && (url in db.targets ==> after.targets[url] == db.targets[url])
  {
    hide Processed, Admitted;
    RefusedLeaveNoTrace(check, db, items);
    forall item | item in Admitted(check, items) ensures item.url != Some(url) {
      AdmittedAre(check, items, item);
    }
    UnlistedStays(check, db, Admitted(check, items), url);
  }

  /** A check that is not cut short registers every other page that is listed. */
  lemma AdmittedAreRegistered(check: Check, db: Db, items: seq<Item>, i: nat)
    requires Inv(db) && i < |items| && items[i].url.Some? && check.isAllowed(items[i].url.value)
    requires Processed(check, db, items).fuel > 0
    ensures items[i].url.value in Processed(check, db, items).targets
  {
    hide Inv, Processed, StartTime, IsAnnounced;
    if check.isBaseline {
      BaselineRegisters(check, db, items);
    } else {
      CompleteRunMoves(check, db, items, i);
    }
  }

  // ----- the changes a check adds

  /** What the source writes for an item: a page it does not know is new, a known one updated to the item's time. */
  predicate IsChangeFor(db: Db, row: Change, item: Item) {
    && item.url == Some(row.url) && row.tags == None
    && ((row.kind == New && row.key == DedupeKey(item.stableKey, None) && row.url !in db.targets)
     || (row.kind == Updated && row.key == DedupeKey(item.stableKey, item.updatedAt) && item.updatedAt.Some?))
  }

  lemma AddedByOne(check: Check, db: Db, item: Item)
    ensures var (after, found) := DetectOne(check, db, item);
      && |db.changes| <= |after.changes| <= |db.changes| + 1
      && (|after.changes| > |db.changes| ==>
            && |found| == 1 && found[0].change == |db.changes| && found[0].item == item
            && IsChangeFor(db, after.changes[|db.changes|], item) && check.isAllowed(after.changes[|db.changes|].url))
  {
  }

  /** The first entry for a row that the check adds is from the item it was added for. */
  lemma {:induction false} AddedFor(check: Check, db: Db, items: seq<Item>, id: nat) returns (k: nat)
    requires Inv(db) && |db.changes| <= id < |DetectAll(check, db, items).0.changes|
    ensures var (found, detected) := DetectAll(check, db, items);
      && k < |detected| && detected[k].change == id && detected[k].item in items
      && IsChangeFor(db, found.changes[id], detected[k].item) && check.isAllowed(found.changes[id].url)
      && (forall m :: 0 <= m < k ==> detected[m].change != id)
    decreases items
  {
    hide Inv, DetectOne, IsChangeFor;
    var (first, found) := DetectOne(check, db, items[0]);
    var (last, more) := DetectAll(check, first, items[1..]);
    DetectOneKeeps(check, db, items[0]);
    AddedByOne(check, db, items[0]);
    DetectKeepsRows(check, first, items[1..]);
    if first.fuel == 0 {
      CrashedDetect(check, first, items[1..]);
    }
    if id < |first.changes| {
      k := 0;
    } else {
      var j := AddedFor(check, first, items[1..], id);
      k := |found| + j;
      OneIsOther(check, db, items[0], id);
      DetectOneComesFrom(check, db, items[0]);
      LaterIsFor(db, first, last.changes[id], more[j].item);
      forall m | 0 <= m < k ensures (found + more)[m].change != id {
        if m >= |found| {
          assert (found + more)[m] == more[m - |found|];
        }
      }
    }
  }

  lemma OneIsOther(check: Check, db: Db, item: Item, id: nat)
    requires |DetectOne(check, db, item).0.changes| <= id
    requires DetectOne(check, db, item).0.fuel > 0
    ensures forall m :: 0 <= m < |DetectOne(check, db, item).1| ==> DetectOne(check, db, item).1[m].change != id
  {
  }

  lemma LaterIsFor(db: Db, later: Db, row: Change, item: Item)
    requires IsChangeFor(later, row, item) && forall u :: u in db.targets ==> u in later.targets
    ensures IsChangeFor(db, row, item)
  {
  }

  // ----- whom it tells

  /** The tags a change gets: none without a classifier. */
  function TagsFor(check: Check, item: Item): Option<seq<Tag>> {
    if check.classifier.Some? then Some(check.classifier.value(item)) else None
  }

  /** Until its first entry comes the row has no tags, and that entry gives it its own. */
  lemma {:induction false} TaggedByFirst(check: Check, db: Db, detected: seq<Detected>, id: nat, k: nat)
    requires id < |db.changes| && db.changes[id].tags == None
    requires k < |detected| && detected[k].change == id && detected[k].row.tags == None
    requires forall m :: 0 <= m < k ==> detected[m].change != id
    requires ClassifyAll(check, db, detected).0.fuel > 0
    ensures var after := ClassifyAll(check, db, detected).0;
      id < |after.changes| && after.changes[id] == db.changes[id].(tags := TagsFor(check, detected[k].item))
    decreases detected
  {
    var (first, d) := ClassifyOne(check, db, detected[0]);
    ClassifyDrops(check, first, detected[1..]);
    if k == 0 {
      TagsStay(check, first, detected[1..], id);
    } else {
      TaggedByFirst(check, first, detected[1..], id, k - 1);
    }
  }

  lemma {:induction false} ClassifyDrops(check: Check, db: Db, detected: seq<Detected>)
    ensures ClassifyAll(check, db, detected).0.fuel <= db.fuel
    decreases detected
  {
    if detected != [] {
      ClassifyDrops(check, ClassifyOne(check, db, detected[0]).0, detected[1..]);
    }
  }

  lemma {:induction false} TagsStay(check: Check, db: Db, detected: seq<Detected>, id: nat)
    requires id < |db.changes| && (db.changes[id].tags.Some? || check.classifier == None)
    ensures var after := ClassifyAll(check, db, detected).0;
      id < |after.changes| && after.changes[id] == db.changes[id]
    decreases detected
  {
    if detected != [] {
      TagsStay(check, ClassifyOne(check, db, detected[0]).0, detected[1..], id);
    }
  }

  ghost predicate IsEntryFor(detected: seq<Detected>, id: nat) {
    exists k :: 0 <= k < |detected| && detected[k].change == id
  }

  lemma {:induction false} FanoutDelivers(db: Db, change: nat, destinations: seq<Destination>, d: Delivery)
    requires Fanout(db, change, destinations).fuel > 0
    ensures d in Fanout(db, change, destinations).deliveries <==>
      d in db.deliveries || (d.change == change && d.destination in destinations)
    decreases destinations
  {
    if destinations != [] {
      var first := AfterDelivery(db, Delivery(change, destinations[0]));
      FanoutFrame(first, change, destinations[1..]);
      OneDelivered(db, Delivery(change, destinations[0]), d);
      hide AfterDelivery;
      FanoutDelivers(first, change, destinations[1..], d);
      assert destinations == [destinations[0]] + destinations[1..];
    }
  }

  lemma OneDelivered(db: Db, one: Delivery, d: Delivery)
    requires AfterDelivery(db, one).fuel > 0
    ensures d in AfterDelivery(db, one).deliveries <==> d in db.deliveries || d == one
  {
  }

  /** With writes left, every delivery of an entry's change is sent once the entry was handled, if all were before. */
  lemma OneTells(check: Check, db: Db, d: Detected, id: nat, to: Destination)
    requires Inv(db) && DetectedOk(db, d) && id < |db.changes| && AllSent(db, id) && NotifyOne(check, db, d).fuel > 0
    ensures var after := NotifyOne(check, db, d);
      && AllSent(after, id)
      && (Delivery(id, to) in after.deliveries <==>
            Delivery(id, to) in db.deliveries || (d.change == id && to in Destinations(check, d.row)))
  {
    hide Inv, Destinations, Fanout, AllSent;
    var destinations := Destinations(check, d.row);
    var mid := Fanout(db, d.change, destinations);
    FanoutFrame(db, d.change, destinations);
    FanoutDelivers(db, d.change, destinations, Delivery(id, to));
    if d.change == id {
      FanoutExact(db, id, destinations);
    } else {
      FanoutSameFor(db, d.change, destinations, id);
      FanoutKeeps(db, d.change, destinations);
      SentStays(db, mid, id);
    }
    SentAfterAdvance(mid, NotifyOne(check, db, d), id);
  }

  lemma SentStays(a: Db, b: Db, id: nat)
    requires SameFor(a, b, id) && AllSent(a, id)
    ensures AllSent(b, id)
  {
    forall k | 0 <= k < |b.deliveries| && b.deliveries[k].change == id ensures k in b.queue {
      assert k < |a.deliveries| && k in a.queue;
    }
  }

  lemma SentAfterAdvance(a: Db, b: Db, id: nat)
    requires b.deliveries == a.deliveries && b.queue == a.queue && AllSent(a, id)
    ensures AllSent(b, id)
  {
  }

  lemma {:induction false} NotifyTells(check: Check, db: Db, detected: seq<Detected>, id: nat, to: Destination)
    requires Inv(db) && AllOk(db, detected) && AllCurrent(db, detected) && id < |db.changes| && AllSent(db, id)
    requires NotifyAll(check, db, detected).fuel > 0
    ensures var after := NotifyAll(check, db, detected);
      && AllSent(after, id)
      && (Delivery(id, to) in after.deliveries <==>
            || Delivery(id, to) in db.deliveries
            || (IsEntryFor(detected, id) && to in Destinations(check, db.changes[id])))
    decreases detected
  {
    hide Inv, NotifyOne, DetectedOk, AllSent, Destinations, Grows;
    if detected != [] {
      var d := detected[0];
      var first := NotifyOne(check, db, d);
      NotifyOneKeeps(check, db, d);
      NotifyOneFrame(check, db, d, d.url);
      OkGrows(db, first, detected[1..]);
      NotifyFuelDrops(check, first, detected[1..]);
      OneTells(check, db, d, id, to);
      NotifyTells(check, first, detected[1..], id, to);
      EntryInTwo(detected, id);
      assert IsCurrent(db, d);
    }
  }

  lemma EntryInTwo(detected: seq<Detected>, id: nat)
    requires detected != []
    ensures IsEntryFor(detected, id) <==> detected[0].change == id || IsEntryFor(detected[1..], id)
  {
    if k :| 0 <= k < |detected| && detected[k].change == id && k > 0 {
      assert detected[1..][k - 1].change == id;
    }
    if k :| 0 <= k < |detected[1..]| && detected[1..][k].change == id {
      assert detected[k + 1].change == id;
    }
  }

  /**
    A change that a complete check adds is the one the source writes for one of its items, tagged by the classifier's
    answer for that item; exactly the destinations subscribed to its kind and these tags have a delivery, and all of
    these are sent.
  */
  lemma AddedTellsSubscribers(check: Check, db: Db, items: seq<Item>, id: nat, to: Destination) returns (item: Item)
    requires Inv(db) && Processed(check, db, items).fuel > 0
    requires |db.changes| <= id < |Processed(check, db, items).changes|
    ensures var after := Processed(check, db, items); var row := after.changes[id]; var tags := TagsFor(check, item);
      && item in items && row.tags == tags && IsChangeFor(db, row.(tags := None), item) && check.isAllowed(row.url)
      && (Delivery(id, to) in after.deliveries <==>
            to in check.matching(row.kind, if tags.Some? then tags.value else []))
      && AllSent(after, id)
  {
    hide Inv, DetectAll, ClassifyAll, NotifyAll, AllOk, IsChangeFor, AllSent;
    var (found, detected) := DetectAll(check, db, items);
    var (tagged, classified) := ClassifyAll(check, found, detected);
    DetectAllKeeps(check, db, items);
    ClassifyAllKeeps(check, found, detected);
    NotifyAllKeeps(check, tagged, classified);
    NotifyAddsNone(check, tagged, classified);
    ClassifyFrame(check, found, detected);
    NotifyFuelDrops(check, tagged, classified);
    ClassifyDrops(check, found, detected);
    var k := AddedFor(check, db, items, id);
    item := detected[k].item;
    DetectCurrent(check, db, items);
    ClassifyCurrent(check, found, detected);
    assert IsCurrent(found, detected[k]);
    RowIsUntagged(db, found.changes[id], item);
    TaggedByFirst(check, found, detected, id, k);
    assert SameButTags(detected[k], classified[k]);
    assert IsEntryFor(classified, id);
    DetectTellsNobody(check, db, items);
    NothingSentYet(db, tagged, id);
    NotifyTells(check, tagged, classified, id, to);
  }

  lemma RowIsUntagged(db: Db, row: Change, item: Item)
    requires IsChangeFor(db, row, item)
    ensures row.tags == None && row.(tags := None) == row
  {
  }

  lemma {:induction false} DetectTellsNobody(check: Check, db: Db, items: seq<Item>)
    ensures var after := DetectAll(check, db, items).0; after.deliveries == db.deliveries && after.queue == db.queue
    decreases items
  {
    if items != [] {
      DetectTellsNobody(check, DetectOne(check, db, items[0]).0, items[1..]);
    }
  }

  lemma NothingSentYet(db: Db, later: Db, id: nat)
    requires Inv(db) && later.deliveries == db.deliveries && id >= |db.changes|
    ensures AllSent(later, id) && forall d :: Delivery(id, d) !in later.deliveries
  {
  }
}
