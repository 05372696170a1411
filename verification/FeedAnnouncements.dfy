/**
  What a watermark says about announcements. A change is announced when its row is stored and every destination that is
  subscribed to it has a delivery. A watermark moves only to the time of an item that was announced before; so an update
  is announced in the end whatever crashes came on the way.
*/
module FeedAnnouncements {
  import opened Common
  import opened Database
  import opened Feed
  import opened FeedFrames
  import opened FeedRecovery

  // ----- one check

  ghost predicate AllTagged(check: Check, detected: seq<Detected>) {
    forall k :: 0 <= k < |detected| ==> IsTagged(check, detected[k])
  }

  lemma NotifyOneMoves(check: Check, db: Db, d: Detected, url: Url)
    requires Inv(db) && DetectedOk(db, d) && url in db.targets
    requires db.fuel > 0 ==> IsCurrent(db, d) && IsTagged(check, d)
    requires url in NotifyOne(check, db, d).targets && NotifyOne(check, db, d).targets[url] != db.targets[url]
    ensures d.url == url && d.advanceTo.Some? && d.advanceTo == NotifyOne(check, db, d).targets[url]
    ensures AnnouncedAt(NotifyOne(check, db, d), check, d.change, d.row.key)
  {
    hide Inv, Fanout, Destinations;
    FanoutKeeps(db, d.change, Destinations(check, d.row));
    FanoutFrame(db, d.change, Destinations(check, d.row));
  }

  /** Deliveries stay, so what is announced stays announced while Notify goes on. */
  lemma AnnouncedThroughNotify(check: Check, a: Db, b: Db, id: nat, key: DedupeKey)
    requires AnnouncedAt(a, check, id, key) && Grows(a, b) && b.changes == a.changes
    ensures AnnouncedAt(b, check, id, key)
  {
    hide Destinations;
  }

  /** Whatever Notify moved, it announced first, and no write of that was lost. */
  lemma {:induction false} NotifyMovesAnnounced(check: Check, db: Db, detected: seq<Detected>, url: Url)
    returns (k: nat)
    requires Inv(db) && AllOk(db, detected) && url in db.targets
    requires db.fuel > 0 ==> AllCurrent(db, detected) && AllTagged(check, detected)
    requires url in NotifyAll(check, db, detected).targets
    requires NotifyAll(check, db, detected).targets[url] != db.targets[url]
    ensures k < |detected| && detected[k].url == url && detected[k].advanceTo.Some?
    ensures detected[k].advanceTo == NotifyAll(check, db, detected).targets[url]
    ensures AnnouncedAt(NotifyAll(check, db, detected), check, detected[k].change, detected[k].row.key)
    decreases detected
  {
    hide Inv, NotifyOne, DetectedOk, AnnouncedAt, Grows, IsCurrent, IsTagged;
    var first := NotifyOne(check, db, detected[0]);
    var last := NotifyAll(check, first, detected[1..]);
    assert DetectedOk(db, detected[0]) && (db.fuel > 0 ==> IsCurrent(db, detected[0]) && IsTagged(check, detected[0]));
    NotifyOneKeeps(check, db, detected[0]);
    NotifyOneFrame(check, db, detected[0], url);
    OkGrows(db, first, detected[1..]);
    CurrentWithSameChanges(db, first, detected[1..]);
    FuelNeverGrows(db, first);
    if last.targets[url] != first.targets[url] {
      var j := NotifyMovesAnnounced(check, first, detected[1..], url);
      k := j + 1;
    } else {
      k := 0;
      NotifyOneMoves(check, db, detected[0], url);
      NotifyAllKeeps(check, first, detected[1..]);
      NotifyAddsNone(check, first, detected[1..]);
      AnnouncedThroughNotify(check, first, last, detected[0].change, detected[0].row.key);
    }
  }

  lemma CurrentWithSameChanges(a: Db, b: Db, detected: seq<Detected>)
    requires a.changes == b.changes
    ensures AllCurrent(a, detected) <==> AllCurrent(b, detected)
  {
  }

  lemma ReadyToNotify(check: Check, db: Db, items: seq<Item>)
    requires Inv(db)
    ensures var (found, detected) := DetectAll(check, db, items);
      var (tagged, classified) := ClassifyAll(check, found, detected);
      && Inv(tagged) && AllOk(tagged, classified) && Grows(db, tagged)
      && (tagged.fuel > 0 ==> AllCurrent(tagged, classified) && AllTagged(check, classified))
  {
    hide Inv, DetectAll, ClassifyAll, AllOk, AllCurrent, IsTagged;
    var (found, detected) := DetectAll(check, db, items);
    var (tagged, classified) := ClassifyAll(check, found, detected);
    DetectAllKeeps(check, db, items);
    ClassifyAllKeeps(check, found, detected);
    GrowsTrans(db, found, tagged);
    if tagged.fuel > 0 {
      DetectCurrent(check, db, items);
      ClassifyCurrent(check, found, detected);
    }
  }

  /**
    A watermark after a check, cut short or not: the one before, the time of the item its target was created for, or
    the time of an item that is announced.
  */
  lemma WatermarkAfter(check: Check, db: Db, items: seq<Item>, url: Url)
    requires Inv(db) && url in Processed(check, db, items).targets
    ensures var after := Processed(check, db, items);
      || (url in db.targets && after.targets[url] == db.targets[url])
      || (url !in db.targets && exists item :: IsAmong(items, item, url, after.targets[url]))
      || (exists item :: IsAmong(items, item, url, after.targets[url]) && IsAnnounced(after, check, item))
  {
    hide Inv, DetectAll, ClassifyAll, NotifyAll, AnnouncedAt, AllOk, AllCurrent, IsTagged, ComesFrom;
    var (found, detected) := DetectAll(check, db, items);
    var (tagged, classified) := ClassifyAll(check, found, detected);
    var after := NotifyAll(check, tagged, classified);
    DetectTargets(check, db, items, url);
    ClassifyFrame(check, found, detected);
    NotifyTargets(check, tagged, classified);
    assert url in tagged.targets.Keys;
    ReadyToNotify(check, db, items);
    if after.targets[url] != tagged.targets[url] {
      var k := NotifyMovesAnnounced(check, tagged, classified, url);
      DetectComesFrom(check, db, items, k);
      assert SameButTags(detected[k], classified[k]);
      EntryAnnounces(after, check, detected[k], classified[k]);
    }
  }

  lemma EntryAnnounces(db: Db, check: Check, d: Detected, e: Detected)
    requires ComesFrom(d, d.item) && SameButTags(d, e) && e.advanceTo.Some?
    requires AnnouncedAt(db, check, e.change, e.row.key)
    ensures d.item.url == Some(e.url) && d.item.updatedAt == e.advanceTo && IsAnnounced(db, check, d.item)
  {
    assert AnnouncedAt(db, check, e.change, DedupeKey(d.item.stableKey, d.item.updatedAt));
  }

  // ----- over runs

  /** Announced for good: the change, and a delivery for every destination that was subscribed at the end of run `r`. */
  ghost predicate AnnouncedIn(runs: seq<Run>, r: nat, n: nat, item: Item, id: nat)
    requires r < n <= |runs|
  {
    && id < |StateAfter(runs, r + 1).changes| && id < |StateAfter(runs, n).changes|
    && StateAfter(runs, n).changes[id].key == DedupeKey(item.stableKey, item.updatedAt)
    && forall d :: d in Destinations(runs[r].check, StateAfter(runs, r + 1).changes[id]) ==>
         Delivery(id, d) in StateAfter(runs, n).deliveries
  }

  /** Everything but the fuel, which each run gets anew. */
  ghost predicate Extends(a: Db, b: Db) {
    Grows(a.(fuel := 0), b.(fuel := 0))
  }

  lemma {:induction false} RunsExtend(runs: seq<Run>, i: nat, n: nat)
    requires i <= n <= |runs|
    ensures Extends(StateAfter(runs, i), StateAfter(runs, n))
  {
    hide Inv, Processed, Grows;
    var a := StateAfter(runs, i);
    if i == n {
      GrowsSelf(a.(fuel := 0));
    } else {
      RunsExtend(runs, i, n - 1);
      RunsKeepInv(runs, n - 1);
      var b := StateAfter(runs, n - 1);
      var c := b.(fuel := runs[n - 1].fuel);
      RefuelKeepsInv(b, runs[n - 1].fuel);
      ProcessedKeeps(runs[n - 1].check, c, runs[n - 1].items);
      GrowsUnfuelled(c, StateAfter(runs, n));
      assert c.(fuel := 0) == b.(fuel := 0);
      GrowsTrans(a.(fuel := 0), b.(fuel := 0), StateAfter(runs, n).(fuel := 0));
    }
  }

  lemma GrowsUnfuelled(a: Db, b: Db)
    requires Grows(a, b)
    ensures Extends(a, b)
  {
  }

  lemma StaysAnnounced(runs: seq<Run>, r: nat, n: nat, item: Item)
    requires r < n <= |runs| && IsAnnounced(StateAfter(runs, r + 1), runs[r].check, item)
    ensures exists id: nat :: AnnouncedIn(runs, r, n, item, id)
  {
    hide StateAfter, Destinations;
    var db := StateAfter(runs, r + 1);
    var id: nat :| AnnouncedAt(db, runs[r].check, id, DedupeKey(item.stableKey, item.updatedAt));
    RunsExtend(runs, r + 1, n);
    DeliveriesStay(db, StateAfter(runs, n), id, Destinations(runs[r].check, db.changes[id]));
    assert AnnouncedIn(runs, r, n, item, id);
  }

  lemma DeliveriesStay(a: Db, b: Db, id: nat, destinations: seq<Destination>)
    requires Extends(a, b) && HasDeliveries(a, id, destinations) && id < |a.changes|
    ensures id < |b.changes| && b.changes[id].key == a.changes[id].key
    ensures forall d :: d in destinations ==> Delivery(id, d) in b.deliveries
  {
    assert b.changes[id] == a.changes[id].(tags := b.changes[id].tags);
  }

  /** The time of an item of run `r` that has been announced since. */
  ghost predicate AdvancedTo(runs: seq<Run>, r: nat, n: nat, url: Url, watermark: Option<Time>)
    requires r < n <= |runs|
  {
    exists item, id: nat :: IsAmong(runs[r].items, item, url, watermark) && AnnouncedIn(runs, r, n, item, id)
  }

  /**
    Whenever run `r` moved a target's watermark, it is at the time of one of the run's items, and the change of that
    item and a delivery for every subscribed destination are stored from then on.
  */
  lemma AdvancedMeansAnnounced(runs: seq<Run>, r: nat, n: nat, url: Url)
    requires r < n <= |runs| && url in StateAfter(runs, r).targets
    requires url in StateAfter(runs, r + 1).targets
    requires StateAfter(runs, r + 1).targets[url] != StateAfter(runs, r).targets[url]
    ensures AdvancedTo(runs, r, n, url, StateAfter(runs, r + 1).targets[url])
  {
    hide Inv, Processed, IsAnnounced, AnnouncedIn;
    var before := StateAfter(runs, r).(fuel := runs[r].fuel);
    RunsKeepInv(runs, r);
    RefuelKeepsInv(StateAfter(runs, r), runs[r].fuel);
    assert StateAfter(runs, r + 1) == Processed(runs[r].check, before, runs[r].items);
    hide StateAfter;
    WatermarkAfter(runs[r].check, before, runs[r].items, url);
    var to := StateAfter(runs, r + 1).targets[url];
    var item :| IsAmong(runs[r].items, item, url, to) && IsAnnounced(StateAfter(runs, r + 1), runs[r].check, item);
    StaysAnnounced(runs, r, n, item);
  }

  /** The item the target was created for, at the time the watermark still shows. */
  ghost predicate CreatedFor(runs: seq<Run>, r: nat, url: Url, watermark: Option<Time>)
    requires r < |runs|
  {
    && url !in StateAfter(runs, r).targets
    && exists item :: IsAmong(runs[r].items, item, url, watermark)
  }

  /** After any runs, a watermark is what its target was created with or the time of an announced item. */
  lemma {:induction false} WatermarkIsAnnounced(runs: seq<Run>, n: nat, m: nat, url: Url) returns (r: nat)
    requires n <= m <= |runs| && url in StateAfter(runs, n).targets
    ensures r < n
    ensures CreatedFor(runs, r, url, StateAfter(runs, n).targets[url])
         || AdvancedTo(runs, r, m, url, StateAfter(runs, n).targets[url])
  {
    if n > 0 {
      r := n - 1;
      var before := StateAfter(runs, r).(fuel := runs[r].fuel);
      RunsKeepInv(runs, r);
      RefuelKeepsInv(StateAfter(runs, r), runs[r].fuel);
      assert StateAfter(runs, n) == Processed(runs[r].check, before, runs[r].items);
      hide Inv, Processed, IsAnnounced, AnnouncedIn, StateAfter;
      WatermarkAfter(runs[r].check, before, runs[r].items, url);
      var to := StateAfter(runs, n).targets[url];
      if url in before.targets && StateAfter(runs, n).targets[url] == before.targets[url] {
        r := WatermarkIsAnnounced(runs, n - 1, m, url);
      } else if item :| IsAmong(runs[r].items, item, url, to) && IsAnnounced(StateAfter(runs, n), runs[r].check, item) {
        StaysAnnounced(runs, r, m, item);
      }
    }
  }

  // ----- nothing that is due is passed over

  /** The tables when Detect comes to item `i`. */
  function AtTurn(check: Check, db: Db, items: seq<Item>, i: nat): Db
    requires i <= |items|
  {
    DetectAll(check, db, items[..i]).0
  }

  function DueKey(db: Db, item: Item): DedupeKey
    requires item.url.Some?
  {
    DedupeKey(item.stableKey, if item.url.value in db.targets then item.updatedAt else None)
  }

  lemma DetectOneDue(check: Check, db: Db, item: Item)
    requires !check.isBaseline && IsDue(check, db, item)
    ensures |DetectOne(check, db, item).1| == 1 && DetectOne(check, db, item).1[0].row.key == DueKey(db, item)
  {
  }

  lemma {:induction false} DetectDue(check: Check, db: Db, items: seq<Item>, i: nat) returns (k: nat)
    requires !check.isBaseline && i < |items| && IsDue(check, AtTurn(check, db, items, i), items[i])
    ensures k < |DetectAll(check, db, items).1|
    ensures DetectAll(check, db, items).1[k].row.key == DueKey(AtTurn(check, db, items, i), items[i])
    decreases items
  {
    hide DetectOne, IsDue;
    var (first, found) := DetectOne(check, db, items[0]);
    if i == 0 {
      assert AtTurn(check, db, items, 0) == db;
      DetectOneDue(check, db, items[0]);
      k := 0;
    } else {
      assert items[..i][0] == items[0] && items[..i][1..] == items[1..][..i - 1];
      assert AtTurn(check, first, items[1..], i - 1) == AtTurn(check, db, items, i);
      var j := DetectDue(check, first, items[1..], i - 1);
      k := |found| + j;
    }
  }

  /**
    A check that is not cut short announces every item that is due when its turn comes, whatever crashes came before.
  */
  lemma CompleteRunAnnounces(check: Check, db: Db, items: seq<Item>, i: nat)
    requires Inv(db) && !check.isBaseline && i < |items| && IsDue(check, AtTurn(check, db, items, i), items[i])
    requires Processed(check, db, items).fuel > 0
    ensures exists id: nat ::
      AnnouncedAt(Processed(check, db, items), check, id, DueKey(AtTurn(check, db, items, i), items[i]))
  {
    hide Inv, DetectAll, ClassifyAll, NotifyAll, AnnouncedAt, AllOk, AllCurrent, IsTagged, IsDue, AtTurn;
    var (found, detected) := DetectAll(check, db, items);
    var (tagged, classified) := ClassifyAll(check, found, detected);
    ReadyToNotify(check, db, items);
    NotifyAllKeeps(check, tagged, classified);
    FuelNeverGrows(tagged, NotifyAll(check, tagged, classified));
    var k := DetectDue(check, db, items, i);
    ClassifyFrame(check, found, detected);
    assert SameButTags(detected[k], classified[k]);
    NotifyAnnounces(check, tagged, classified, k);
  }

  /** For a page that was known before the check, an item is due when its turn comes exactly if it was at the start. */
  lemma DueFromTheStart(check: Check, db: Db, items: seq<Item>, i: nat)
    requires i < |items| && items[i].url.Some? && items[i].url.value in db.targets
    ensures IsDue(check, AtTurn(check, db, items, i), items[i]) <==> IsDue(check, db, items[i])
    ensures DueKey(AtTurn(check, db, items, i), items[i]) == DueKey(db, items[i])
  {
    hide DetectAll;
    DetectTargets(check, db, items[..i], items[i].url.value);
  }

  /**
    A page that was unknown is new for the first item that lists it. A further item is due, as an update, exactly if it
    has another time; if not, the check goes as if the item were not there.
  */
  lemma ListedTwice(check: Check, db: Db, items: seq<Item>, a: nat, i: nat)
    requires !check.isBaseline && a < i < |items| && !IsSkipped(check, items[a]) && items[i].url == items[a].url
    requires items[a].url.value !in db.targets && forall b :: 0 <= b < a ==> items[b].url != items[a].url
    requires AtTurn(check, db, items, a).fuel > 0
    ensures IsDue(check, AtTurn(check, db, items, a), items[a])
    ensures IsDue(check, AtTurn(check, db, items, i), items[i])
       <==> items[i].updatedAt.Some? && items[i].updatedAt != items[a].updatedAt
    ensures !IsDue(check, AtTurn(check, db, items, i), items[i]) ==>
      Processed(check, db, items) == Processed(check, db, items[..i] + items[i + 1..])
  {
    hide DetectAll, DetectOne, IsDue;
    var url := items[a].url.value;
    var first, later := AtTurn(check, db, items, a), AtTurn(check, db, items, i);
    DetectTargets(check, db, items[..a], url);
    NewTarget(check, first, items[a]);
    var between := items[a + 1..i];
    assert items[..i] == items[..a] + ([items[a]] + between);
    DetectConcat(check, db, items[..a], [items[a]] + between);
    DetectHead(check, first, items[a], between);
    DetectTargets(check, DetectOne(check, first, items[a]).0, between, url);
    DueAgain(check, first, later, items[a], items[i]);
    if !IsDue(check, later, items[i]) {
      PassedOver(check, later, items[i]);
      var rest := items[i + 1..];
      assert items == items[..i] + ([items[i]] + rest);
      DetectConcat(check, db, items[..i], [items[i]] + rest);
      DetectConcat(check, db, items[..i], rest);
      DetectHead(check, later, items[i], rest);
      assert [] + DetectAll(check, later, rest).1 == DetectAll(check, later, rest).1;
    }
  }

  lemma DetectHead(check: Check, db: Db, item: Item, rest: seq<Item>)
    ensures var (first, found) := DetectOne(check, db, item); var (last, more) := DetectAll(check, first, rest);
      DetectAll(check, db, [item] + rest) == (last, found + more)
  {
    hide DetectOne;
    assert ([item] + rest)[1..] == rest;
  }

  lemma NewTarget(check: Check, db: Db, item: Item)
    requires !IsSkipped(check, item) && item.url.value !in db.targets && db.fuel > 0
    ensures var after := DetectOne(check, db, item).0;
      item.url.value in after.targets && after.targets[item.url.value] == item.updatedAt
  {
  }

  lemma DueAgain(check: Check, first: Db, later: Db, a: Item, item: Item)
    requires !IsSkipped(check, a) && item.url == a.url && a.url.value !in first.targets
    requires a.url.value in later.targets && later.targets[a.url.value] == a.updatedAt
    ensures IsDue(check, first, a)
    ensures IsDue(check, later, item) <==> item.updatedAt.Some? && item.updatedAt != a.updatedAt
  {
  }

  lemma PassedOver(check: Check, db: Db, item: Item)
    requires !check.isBaseline && !IsDue(check, db, item) && (IsSkipped(check, item) || item.url.value in db.targets)
    ensures DetectOne(check, db, item) == (db, [])
  {
  }

  // ----- attempts

  /** The same check may be cut short any number of times. */
  function Retried(check: Check, db: Db, items: seq<Item>, fuels: seq<nat>, n: nat): Db
    requires n <= |fuels|
  {
    if n == 0 then db else Processed(check, Retried(check, db, items, fuels, n - 1).(fuel := fuels[n - 1]), items)
  }

  lemma SameRowStaysAnnounced(check: Check, a: Db, b: Db, id: nat, key: DedupeKey)
    requires AnnouncedAt(a, check, id, key) && Grows(a, b)
    requires check.classifier == None ==> b.changes[id] == a.changes[id]
    ensures AnnouncedAt(b, check, id, key)
  {
    hide Destinations;
    assert b.changes[id] == a.changes[id].(tags := b.changes[id].tags);
  }

  lemma AnnouncedThroughCheck(check: Check, db: Db, items: seq<Item>, id: nat, key: DedupeKey)
    requires Inv(db) && AnnouncedAt(db, check, id, key)
    ensures AnnouncedAt(Processed(check, db, items), check, id, key)
  {
    hide Inv, DetectAll, ClassifyAll, NotifyAll;
    var (found, detected) := DetectAll(check, db, items);
    var (tagged, classified) := ClassifyAll(check, found, detected);
    ProcessedKeeps(check, db, items);
    DetectKeepsRows(check, db, items);
    NotifyAddsNone(check, tagged, classified);
    if check.classifier == None {
      NoClassifier(check, found, detected);
    }
    SameRowStaysAnnounced(check, db, Processed(check, db, items), id, key);
  }

  lemma Refuelled(a: Db, b: Db, check: Check, id: nat, key: DedupeKey)
    requires b == a.(fuel := b.fuel) && AnnouncedAt(a, check, id, key)
    ensures AnnouncedAt(b, check, id, key)
  {
  }

  lemma {:induction false} RetriedInv(check: Check, db: Db, items: seq<Item>, fuels: seq<nat>, n: nat)
    requires Inv(db) && n <= |fuels|
    ensures Inv(Retried(check, db, items, fuels, n))
  {
    hide Inv, Processed;
    if n > 0 {
      RetriedInv(check, db, items, fuels, n - 1);
      var before := Retried(check, db, items, fuels, n - 1);
      RefuelKeepsInv(before, fuels[n - 1]);
      ProcessedKeeps(check, before.(fuel := fuels[n - 1]), items);
    }
  }

  lemma AnnouncedStays(check: Check, db: Db, fuel: nat, items: seq<Item>, item: Item)
    requires Inv(db) && IsAnnounced(db, check, item)
    ensures IsAnnounced(Processed(check, db.(fuel := fuel), items), check, item)
  {
    hide Inv, Processed, AnnouncedAt;
    var key := DedupeKey(item.stableKey, item.updatedAt);
    var id: nat :| AnnouncedAt(db, check, id, key);
    Refuelled(db, db.(fuel := fuel), check, id, key);
    RefuelKeepsInv(db, fuel);
    AnnouncedThroughCheck(check, db.(fuel := fuel), items, id, key);
  }
}
