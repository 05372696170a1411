/**
  Facts about Detect, Classify and Notify that the results on crashes share: where entries come from, the loops cut at
  an entry, what a crash leaves undone, and what a check leaves alone.
*/
module FeedFrames {
  import opened Common
  import opened Database
  import opened Feed

  // ----- where the entries of a check come from

  /** The adapters drop items that repeat a stable key (src/adapters/atom.ts:80-84). */
  predicate OnlyOneHasKey(items: seq<Item>, i: nat) {
    i < |items| && forall j :: 0 <= j < |items| && j != i ==> items[j].stableKey != items[i].stableKey
  }

  predicate ComesFrom(d: Detected, item: Item) {
    && item.url == Some(d.url) && d.row.key == DedupeKey(item.stableKey, d.advanceTo)
    && (d.advanceTo.Some? ==> d.advanceTo == item.updatedAt)
  }

  lemma DetectOneComesFrom(check: Check, db: Db, item: Item)
    ensures forall k :: 0 <= k < |DetectOne(check, db, item).1| ==>
      DetectOne(check, db, item).1[k].item == item && ComesFrom(DetectOne(check, db, item).1[k], item)
    ensures forall u :: u in db.targets ==>
      u in DetectOne(check, db, item).0.targets && DetectOne(check, db, item).0.targets[u] == db.targets[u]
    ensures forall u :: u in DetectOne(check, db, item).0.targets && u !in db.targets ==>
      item.url == Some(u) && DetectOne(check, db, item).0.targets[u] == item.updatedAt
  {
  }

  lemma {:induction false} DetectComesFrom(check: Check, db: Db, items: seq<Item>, k: nat)
    requires k < |DetectAll(check, db, items).1|
    ensures var d := DetectAll(check, db, items).1[k]; d.item in items && ComesFrom(d, d.item)
    decreases items
  {
    hide DetectOne, ComesFrom;
    var (first, found) := DetectOne(check, db, items[0]);
    DetectOneComesFrom(check, db, items[0]);
    if k < |found| {
      assert DetectAll(check, db, items).1[k] == found[k];
    } else {
      DetectComesFrom(check, first, items[1..], k - |found|);
    }
  }

  predicate IsAmong(items: seq<Item>, item: Item, url: Url, at: Option<Time>) {
    item in items && item.url == Some(url) && item.updatedAt == at
  }

  /** Detect leaves watermarks alone and creates targets at the time of one of its items. */
  lemma {:induction false} DetectTargets(check: Check, db: Db, items: seq<Item>, url: Url)
    ensures var after := DetectAll(check, db, items).0;
      && (url in db.targets ==> url in after.targets && after.targets[url] == db.targets[url])
      && (url in after.targets && url !in db.targets ==>
            exists item :: IsAmong(items, item, url, after.targets[url]))
    decreases items
  {
    hide DetectOne;
    if items != [] {
      var first := DetectOne(check, db, items[0]).0;
      DetectOneComesFrom(check, db, items[0]);
      DetectTargets(check, first, items[1..], url);
      var after := DetectAll(check, db, items).0;
      if url in first.targets && url !in db.targets {
        assert IsAmong(items, items[0], url, after.targets[url]);
      } else if url in after.targets && url !in db.targets {
        var item :| IsAmong(items[1..], item, url, after.targets[url]);
        assert IsAmong(items, item, url, after.targets[url]);
      }
    }
  }

  lemma {:induction false} DetectKeepsRows(check: Check, db: Db, items: seq<Item>)
    ensures db.changes <= DetectAll(check, db, items).0.changes
    decreases items
  {
    if items != [] {
      DetectKeepsRows(check, DetectOne(check, db, items[0]).0, items[1..]);
    }
  }

  /** Classify leaves everything about an entry but its tags, and targets and watermarks altogether. */
  ghost predicate SameButTags(a: Detected, b: Detected) {
    b == a.(row := a.row.(tags := b.row.tags))
  }

  lemma {:induction false} ClassifyFrame(check: Check, db: Db, detected: seq<Detected>)
    ensures var (after, classified) := ClassifyAll(check, db, detected);
      && after == db.(changes := after.changes, fuel := after.fuel) && |after.changes| == |db.changes|
      && (forall i :: 0 <= i < |db.changes| ==> after.changes[i].key == db.changes[i].key)
      && forall k :: 0 <= k < |detected| ==> SameButTags(detected[k], classified[k])
    decreases detected
  {
    if detected != [] {
      ClassifyFrame(check, ClassifyOne(check, db, detected[0]).0, detected[1..]);
    }
  }

  lemma NotifyOneFrame(check: Check, db: Db, d: Detected, url: Url)
    ensures NotifyOne(check, db, d).changes == db.changes && NotifyOne(check, db, d).targets.Keys == db.targets.Keys
    ensures url in db.targets && (d.url != url || d.advanceTo == None) ==>
      NotifyOne(check, db, d).targets[url] == db.targets[url]
    ensures NotifyOne(check, db, d).fuel > 0 && d.url in db.targets ==>
      IsAtLeast(NotifyOne(check, db, d).targets[d.url], d.advanceTo)
  {
    hide Fanout;
    FanoutFrame(db, d.change, Destinations(check, d.row));
  }

  lemma {:induction false} NotifyTargets(check: Check, db: Db, detected: seq<Detected>)
    ensures NotifyAll(check, db, detected).targets.Keys == db.targets.Keys
    decreases detected
  {
    hide NotifyOne;
    if detected != [] {
      NotifyOneFrame(check, db, detected[0], "");
      NotifyTargets(check, NotifyOne(check, db, detected[0]), detected[1..]);
    }
  }

  lemma {:induction false} NoClassifier(check: Check, db: Db, detected: seq<Detected>)
    requires check.classifier == None
    ensures ClassifyAll(check, db, detected) == (db, detected)
    decreases detected
  {
    if detected != [] {
      NoClassifier(check, db, detected[1..]);
      assert detected == [detected[0]] + detected[1..];
    }
  }

  lemma {:induction false} NotifyFuelDrops(check: Check, db: Db, detected: seq<Detected>)
    ensures NotifyAll(check, db, detected).fuel <= db.fuel
    decreases detected
  {
    hide Fanout, Destinations;
    if detected != [] {
      FanoutFrame(db, detected[0].change, Destinations(check, detected[0].row));
      NotifyFuelDrops(check, NotifyOne(check, db, detected[0]), detected[1..]);
    }
  }

  lemma FuelNeverGrows(a: Db, b: Db)
    requires Grows(a, b)
    ensures b.fuel <= a.fuel
  {
  }

  // ----- the three loops, cut at an entry

  lemma {:induction false} DetectConcat(check: Check, db: Db, a: seq<Item>, b: seq<Item>)
    ensures var (first, found) := DetectAll(check, db, a); var (last, more) := DetectAll(check, first, b);
      DetectAll(check, db, a + b) == (last, found + more)
    decreases a
  {
    hide DetectOne;
    if a == [] {
      assert a + b == b;
      assert [] + DetectAll(check, db, b).1 == DetectAll(check, db, b).1;
    } else {
      assert (a + b)[0] == a[0] && (a + b)[1..] == a[1..] + b;
      var (one, d) := DetectOne(check, db, a[0]);
      DetectConcat(check, one, a[1..], b);
      var (first, found) := DetectAll(check, one, a[1..]);
      Associative(d, found, DetectAll(check, first, b).1);
    }
  }

  lemma {:induction false} ClassifyConcat(check: Check, db: Db, a: seq<Detected>, b: seq<Detected>)
    ensures var (first, c) := ClassifyAll(check, db, a); var (last, d) := ClassifyAll(check, first, b);
      ClassifyAll(check, db, a + b) == (last, c + d)
    decreases a
  {
    hide ClassifyOne;
    if a == [] {
      assert a + b == b;
      assert [] + ClassifyAll(check, db, b).1 == ClassifyAll(check, db, b).1;
    } else {
      assert (a + b)[0] == a[0] && (a + b)[1..] == a[1..] + b;
      var (one, e) := ClassifyOne(check, db, a[0]);
      ClassifyConcat(check, one, a[1..], b);
      var (first, c) := ClassifyAll(check, one, a[1..]);
      Associative([e], c, ClassifyAll(check, first, b).1);
    }
  }

  lemma {:induction false} NotifyConcat(check: Check, db: Db, a: seq<Detected>, b: seq<Detected>)
    ensures NotifyAll(check, db, a + b) == NotifyAll(check, NotifyAll(check, db, a), b)
    decreases a
  {
    hide NotifyOne;
    if a == [] {
      assert a + b == b;
    } else {
      assert (a + b)[0] == a[0] && (a + b)[1..] == a[1..] + b;
      NotifyConcat(check, NotifyOne(check, db, a[0]), a[1..], b);
    }
  }

  // ----- after a crash

  lemma {:induction false} CrashedDetect(check: Check, db: Db, items: seq<Item>)
    requires db.fuel == 0
    ensures DetectAll(check, db, items).0 == db
    decreases items
  {
    if items != [] {
      CrashedDetect(check, db, items[1..]);
    }
  }

  lemma {:induction false} CrashedClassify(check: Check, db: Db, detected: seq<Detected>)
    requires db.fuel == 0
    ensures ClassifyAll(check, db, detected).0 == db
    decreases detected
  {
    if detected != [] {
      CrashedClassify(check, db, detected[1..]);
    }
  }

  lemma {:induction false} CrashedFanout(db: Db, change: nat, destinations: seq<Destination>)
    requires db.fuel == 0
    ensures Fanout(db, change, destinations) == db
    decreases destinations
  {
    if destinations != [] {
      CrashedFanout(db, change, destinations[1..]);
    }
  }

  /** Once both have crashed, the entries they go by may differ: nothing is written for any of them. */
  lemma {:induction false} CrashedNotify(check: Check, db: Db, detected: seq<Detected>)
    requires db.fuel == 0
    ensures NotifyAll(check, db, detected) == db
    decreases detected
  {
    if detected != [] {
      CrashedFanout(db, detected[0].change, Destinations(check, detected[0].row));
      CrashedNotify(check, db, detected[1..]);
    }
  }

  // ----- what entries about other changes leave alone

  ghost predicate Avoids(detected: seq<Detected>, id: nat) {
    forall k :: 0 <= k < |detected| ==> detected[k].change != id
  }

  /** Nothing about the change is different: not its row, not its deliveries, not their messages. */
  ghost predicate SameFor(a: Db, b: Db, id: nat) {
    && id < |a.changes| <= |b.changes| && b.changes[id] == a.changes[id]
    && a.deliveries <= b.deliveries && a.queue <= b.queue
    && (forall k :: |a.deliveries| <= k < |b.deliveries| ==> b.deliveries[k].change != id)
    && (forall q :: |a.queue| <= q < |b.queue| ==> b.queue[q] >= |a.deliveries|)
  }

  lemma SameForTrans(a: Db, b: Db, c: Db, id: nat)
    requires SameFor(a, b, id) && SameFor(b, c, id)
    ensures SameFor(a, c, id)
  {
  }

  lemma {:induction false} DetectSameFor(check: Check, db: Db, items: seq<Item>, id: nat)
    requires id < |db.changes|
    ensures SameFor(db, DetectAll(check, db, items).0, id)
    decreases items
  {
    if items != [] {
      var first := DetectOne(check, db, items[0]).0;
      DetectSameFor(check, first, items[1..], id);
    }
  }

  lemma {:induction false} ClassifySameFor(check: Check, db: Db, detected: seq<Detected>, id: nat)
    requires id < |db.changes| && Avoids(detected, id)
    ensures SameFor(db, ClassifyAll(check, db, detected).0, id) && Avoids(ClassifyAll(check, db, detected).1, id)
    decreases detected
  {
    if detected != [] {
      ClassifySameFor(check, ClassifyOne(check, db, detected[0]).0, detected[1..], id);
    }
  }

  lemma {:induction false} FanoutSameFor(db: Db, change: nat, destinations: seq<Destination>, id: nat)
    requires id < |db.changes| && change != id
    ensures SameFor(db, Fanout(db, change, destinations), id)
    decreases destinations
  {
    if destinations != [] {
      var first := AfterDelivery(db, Delivery(change, destinations[0]));
      FanoutSameFor(first, change, destinations[1..], id);
      SameForTrans(db, first, Fanout(first, change, destinations[1..]), id);
    }
  }

  lemma {:induction false} NotifySameFor(check: Check, db: Db, detected: seq<Detected>, id: nat)
    requires id < |db.changes| && Avoids(detected, id)
    ensures SameFor(db, NotifyAll(check, db, detected), id)
    decreases detected
  {
    hide Fanout, Destinations;
    if detected != [] {
      var first := NotifyOne(check, db, detected[0]);
      FanoutSameFor(db, detected[0].change, Destinations(check, detected[0].row), id);
      NotifySameFor(check, first, detected[1..], id);
      SameForTrans(db, first, NotifyAll(check, first, detected[1..]), id);
    }
  }

  /**
    No entry for the key comes from the item: not under its stable key, not at its time, or not at a page like this.
  */
  predicate CannotBring(check: Check, db: Db, item: Item, key: DedupeKey) {
    || IsSkipped(check, item)
    || item.stableKey != key.stableKey
    || (key.updatedAt.Some? && item.updatedAt != key.updatedAt)
    || (item.url.value in db.targets && (key.updatedAt == None || db.targets[item.url.value] == key.updatedAt))
  }

  lemma CannotBringStays(check: Check, db: Db, first: Item, item: Item, key: DedupeKey)
    requires CannotBring(check, db, item, key)
    ensures CannotBring(check, DetectOne(check, db, first).0, item, key)
  {
    hide DetectOne;
    DetectOneComesFrom(check, db, first);
  }

  lemma DetectOneAvoids(check: Check, db: Db, item: Item, id: nat)
    requires id < |db.changes| && CannotBring(check, db, item, db.changes[id].key)
    ensures Avoids(DetectOne(check, db, item).1, id)
  {
  }

  lemma {:induction false} DetectAvoids(check: Check, db: Db, items: seq<Item>, id: nat)
    requires id < |db.changes|
    requires forall j :: 0 <= j < |items| ==> CannotBring(check, db, items[j], db.changes[id].key)
    ensures Avoids(DetectAll(check, db, items).1, id)
    decreases items
  {
    hide DetectOne, CannotBring;
    if items != [] {
      var first := DetectOne(check, db, items[0]).0;
      DetectOneAvoids(check, db, items[0], id);
      OneDetectSameFor(check, db, items[0], id);
      forall j | 0 <= j < |items[1..]| ensures CannotBring(check, first, items[1..][j], first.changes[id].key) {
        assert items[1..][j] == items[j + 1];
        CannotBringStays(check, db, items[0], items[j + 1], db.changes[id].key);
      }
      DetectAvoids(check, first, items[1..], id);
    }
  }

  lemma OneDetectSameFor(check: Check, db: Db, item: Item, id: nat)
    requires id < |db.changes|
    ensures SameFor(db, DetectOne(check, db, item).0, id)
  {
  }

  /** A whole check on items that cannot bring the key of a change leaves the change as it is. */
  lemma CheckSameFor(check: Check, db: Db, items: seq<Item>, id: nat)
    requires id < |db.changes|
    requires forall j :: 0 <= j < |items| ==> CannotBring(check, db, items[j], db.changes[id].key)
    ensures SameFor(db, Processed(check, db, items), id)
  {
    hide DetectAll, ClassifyAll, NotifyAll, CannotBring, SameFor;
    var (found, detected) := DetectAll(check, db, items);
    var (tagged, classified) := ClassifyAll(check, found, detected);
    DetectSameFor(check, db, items, id);
    DetectAvoids(check, db, items, id);
    RowThere(db, found, id);
    ClassifySameFor(check, found, detected, id);
    RowThere(found, tagged, id);
    NotifySameFor(check, tagged, classified, id);
    SameForTrans(db, found, tagged, id);
    SameForTrans(db, tagged, Processed(check, db, items), id);
  }

  lemma RowThere(a: Db, b: Db, id: nat)
    requires SameFor(a, b, id)
    ensures id < |b.changes| && b.changes[id] == a.changes[id]
  {
  }
}
