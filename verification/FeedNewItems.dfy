/**
  What a crash does to a new item. Detect creates the item's target at the item's time, and only an item whose target is
  missing counts as new. So a crash after that write and before the last message of the item's fanout costs the item
  what is still to come: no later check finds it new, and none finds an update.
*/
module FeedNewItems {
  import opened Common
  import opened Database
  import opened Feed
  import opened FeedFrames
  import opened FeedRecovery
  import opened FeedAnnouncements

  ghost predicate HasKey(db: Db, key: DedupeKey) {
    exists id :: 0 <= id < |db.changes| && db.changes[id].key == key
  }

  lemma KeyStays(a: Db, b: Db, key: DedupeKey)
    requires Grows(a, b) && HasKey(a, key)
    ensures HasKey(b, key)
  {
    var id :| 0 <= id < |a.changes| && a.changes[id].key == key;
    assert b.changes[id].key == key;
  }

  // ----- announced and sent

  ghost predicate AllSent(db: Db, id: nat) {
    forall k :: 0 <= k < |db.deliveries| && db.deliveries[k].change == id ==> k in db.queue
  }

  /** The change is stored and tagged, and every matching destination has a delivery with a message. */
  ghost predicate IsTold(db: Db, check: Check, id: nat, key: DedupeKey) {
    AnnouncedAt(db, check, id, key) && AllSent(db, id)
  }

  lemma ToldIsSame(a: Db, b: Db, check: Check, id: nat, key: DedupeKey)
    requires Inv(b) && SameFor(a, b, id)
    ensures IsTold(a, check, id, key) <==> IsTold(b, check, id, key)
  {
    hide Destinations;
    assert AllSent(a, id) <==> AllSent(b, id) by {
      forall k | 0 <= k < |a.deliveries| ensures k in a.queue <==> k in b.queue {
        if k in b.queue {
          var q :| 0 <= q < |b.queue| && b.queue[q] == k;
          assert q < |a.queue|;
        }
      }
    }
    var destinations := Destinations(check, a.changes[id]);
    forall d ensures Delivery(id, d) in a.deliveries <==> Delivery(id, d) in b.deliveries {
      if Delivery(id, d) in b.deliveries {
        var k :| 0 <= k < |b.deliveries| && b.deliveries[k] == Delivery(id, d);
        assert k < |a.deliveries|;
      }
    }
  }

  // ----- how many writes a fanout takes

  function Missing(db: Db, change: nat, destinations: seq<Destination>): set<Destination> {
    set d | d in destinations && Delivery(change, d) !in db.deliveries
  }

  lemma NothingMissing(db: Db, change: nat)
    ensures |Missing(db, change, [])| == 0
  {
    assert Missing(db, change, []) == {};
  }

  lemma MissingNotFirst(db: Db, change: nat, destinations: seq<Destination>)
    requires destinations != [] && Delivery(change, destinations[0]) in db.deliveries
    ensures Missing(db, change, destinations) == Missing(db, change, destinations[1..])
  {
    assert forall x :: x in destinations <==> x == destinations[0] || x in destinations[1..];
  }

  lemma MissingFirst(db: Db, after: Db, change: nat, destinations: seq<Destination>)
    requires destinations != [] && Delivery(change, destinations[0]) !in db.deliveries
    requires after.deliveries == db.deliveries + [Delivery(change, destinations[0])]
    ensures |Missing(db, change, destinations)| == |Missing(after, change, destinations[1..])| + 1
  {
    var d, rest := destinations[0], destinations[1..];
    assert forall x :: x in destinations <==> x == d || x in rest;
    assert after.deliveries[|db.deliveries|] == Delivery(change, d);
    assert forall x :: Delivery(change, x) in after.deliveries <==> x == d || Delivery(change, x) in db.deliveries;
    assert Missing(db, change, destinations) == Missing(after, change, rest) + {d};
  }

  /** Two writes for each destination that has no delivery yet, and not one less for all of them to be sent. */
  lemma {:induction false} FanoutExact(db: Db, change: nat, destinations: seq<Destination>)
    requires Inv(db) && change < |db.changes| && AllSent(db, change)
    ensures var after := Fanout(db, change, destinations);
      && after.fuel == Max(0, db.fuel - 2 * |Missing(db, change, destinations)|)
      && (db.fuel >= 2 * |Missing(db, change, destinations)| <==>
            HasDeliveries(after, change, destinations) && AllSent(after, change))
    decreases destinations
  {
    hide Inv, AfterDelivery, Missing, AllSent;
    if destinations == [] {
      NothingMissing(db, change);
    } else {
      var d, rest := Delivery(change, destinations[0]), destinations[1..];
      var first := AfterDelivery(db, d);
      DeliveryInv(db, d);
      if d in db.deliveries {
        PresentIsLeft(db, d);
        MissingNotFirst(db, change, destinations);
        FanoutExact(db, change, rest);
        FanoutKeeps(db, change, rest);
      } else {
        MissingFirst(db, db.(deliveries := db.deliveries + [d]), change, destinations);
        if db.fuel < 2 {
          CrashedBeforeSending(db, d);
          CrashedFanout(first, change, rest);
        } else {
          CreatedAndSent(db, d);
          MissingFirst(db, first, change, destinations);
          FanoutExact(first, change, rest);
          FanoutKeeps(first, change, rest);
        }
      }
    }
  }

  lemma PresentIsLeft(db: Db, d: Delivery)
    requires d in db.deliveries
    ensures AfterDelivery(db, d) == db
  {
  }

  lemma CrashedBeforeSending(db: Db, d: Delivery)
    requires Inv(db) && d !in db.deliveries && db.fuel < 2
    ensures var after := AfterDelivery(db, d);
      after.fuel == 0 && (d !in after.deliveries || !AllSent(after, d.change))
  {
    var after := AfterDelivery(db, d);
    if db.fuel == 1 {
      assert after.deliveries[|db.deliveries|] == d && after.queue == db.queue;
      assert |db.deliveries| !in db.queue;
    }
  }

  lemma CreatedAndSent(db: Db, d: Delivery)
    requires Inv(db) && d !in db.deliveries && db.fuel >= 2 && AllSent(db, d.change)
    ensures var after := AfterDelivery(db, d);
      && after.deliveries == db.deliveries + [d] && after.queue == db.queue + [|db.deliveries|]
      && after.fuel == db.fuel - 2 && after.changes == db.changes && AllSent(after, d.change)
      && d in after.deliveries
  {
    var after := AfterDelivery(db, d);
    assert after.queue[|db.queue|] == |db.deliveries|;
    assert after.deliveries[|db.deliveries|] == d;
    forall k | 0 <= k < |after.deliveries| && after.deliveries[k].change == d.change ensures k in after.queue {
      if k < |db.deliveries| {
        assert k in db.queue;
      }
    }
  }

  // ----- the turns of one item in a check

  /** The writes left when the item's turn comes in Detect, in Classify and in Notify, and who is then notified. */
  datatype Turns = Turns(detect: nat, classify: nat, notify: nat, destinations: seq<Destination>)

  /** A check cut at one of its items: what is before it, the item itself, and what is after it. */
  function TurnsOf(check: Check, db: Db, items: seq<Item>, i: nat): Turns
    requires i < |items|
  {
    var (f1, before) := DetectAll(check, db, items[..i]);
    var (f2, entry) := DetectOne(check, f1, items[i]);
    var (f3, behind) := DetectAll(check, f2, items[i + 1..]);
    var (t1, c1) := ClassifyAll(check, f3, before);
    var (t2, c) := ClassifyAll(check, t1, entry);
    var (t3, c3) := ClassifyAll(check, t2, behind);
    var n1 := NotifyAll(check, t3, c1);
    Turns(f1.fuel, t1.fuel, n1.fuel, if c == [] then [] else Destinations(check, c[0].row))
  }

  lemma CheckInTurns(check: Check, db: Db, items: seq<Item>, i: nat)
    requires i < |items|
    ensures var (f1, before) := DetectAll(check, db, items[..i]);
      var (f2, entry) := DetectOne(check, f1, items[i]);
      var (f3, behind) := DetectAll(check, f2, items[i + 1..]);
      var (t1, c1) := ClassifyAll(check, f3, before);
      var (t2, c) := ClassifyAll(check, t1, entry);
      var (t3, c3) := ClassifyAll(check, t2, behind);
      && DetectAll(check, db, items).0 == f3
      && Processed(check, db, items) == NotifyAll(check, NotifyAll(check, NotifyAll(check, t3, c1), c), c3)
  {
    hide DetectOne;
    var (f1, before) := DetectAll(check, db, items[..i]);
    var (f2, entry) := DetectOne(check, f1, items[i]);
    var (f3, behind) := DetectAll(check, f2, items[i + 1..]);
    assert DetectAll(check, f1, items[i..]) == (f3, entry + behind) by {
      assert items[i..][0] == items[i] && items[i..][1..] == items[i + 1..];
    }
    hide DetectAll;
    assert items == items[..i] + items[i..];
    DetectConcat(check, db, items[..i], items[i..]);
    hide ClassifyAll, NotifyAll;
    ClassifyConcat(check, f3, before, entry + behind);
    var (t1, c1) := ClassifyAll(check, f3, before);
    ClassifyConcat(check, t1, entry, behind);
    var (t2, c) := ClassifyAll(check, t1, entry);
    var (t3, c3) := ClassifyAll(check, t2, behind);
    NotifyConcat(check, t3, c1, c + c3);
    NotifyConcat(check, NotifyAll(check, t3, c1), c, c3);
  }

  // ----- a new item in one check

  predicate IsFirstOfPage(items: seq<Item>, i: nat) {
    i < |items| && forall j :: 0 <= j < i ==> items[j].url != items[i].url
  }

  function NewKey(item: Item): DedupeKey {
    DedupeKey(item.stableKey, None)
  }

  /** The check would report the item as new: it is the first to list a page without a target, and its key is unused. */
  ghost predicate IsNewItem(check: Check, db: Db, items: seq<Item>, i: nat) {
    && !check.isBaseline && IsFirstOfPage(items, i) && OnlyOneHasKey(items, i) && !IsSkipped(check, items[i])
    && items[i].url.value !in db.targets && !HasKey(db, NewKey(items[i]))
  }

  /** Only an item with this stable key whose target is missing brings the key in. */
  lemma {:induction false} NoOtherBringsKey(check: Check, db: Db, items: seq<Item>, stableKey: string)
    requires !HasKey(db, DedupeKey(stableKey, None))
    requires forall i :: 0 <= i < |items| ==>
      IsSkipped(check, items[i]) || items[i].stableKey != stableKey || items[i].url.value in db.targets
    ensures !HasKey(DetectAll(check, db, items).0, DedupeKey(stableKey, None))
    decreases items
  {
    hide DetectOne;
    if items != [] {
      var first := DetectOne(check, db, items[0]).0;
      DetectOneKey(check, db, items[0], stableKey);
      NoOtherBringsKey(check, first, items[1..], stableKey);
    }
  }

  lemma DetectOneKey(check: Check, db: Db, item: Item, stableKey: string)
    requires !HasKey(db, DedupeKey(stableKey, None))
    requires IsSkipped(check, item) || item.stableKey != stableKey || item.url.value in db.targets
    ensures !HasKey(DetectOne(check, db, item).0, DedupeKey(stableKey, None))
    ensures forall u :: u in db.targets ==> u in DetectOne(check, db, item).0.targets
  {
  }

  /** When Detect comes to the item its target and its change are still missing. */
  lemma ReachItem(check: Check, db: Db, items: seq<Item>, i: nat)
    requires IsNewItem(check, db, items, i)
    ensures items[i].url.value !in DetectAll(check, db, items[..i]).0.targets
    ensures !HasKey(DetectAll(check, db, items[..i]).0, NewKey(items[i]))
  {
    hide DetectAll;
    DetectTargets(check, db, items[..i], items[i].url.value);
    NoOtherBringsKey(check, db, items[..i], items[i].stableKey);
  }

  lemma NewItemStep(check: Check, db: Db, item: Item)
    requires !check.isBaseline && !IsSkipped(check, item) && item.url.value !in db.targets && !HasKey(db, NewKey(item))
    ensures var (after, entry) := DetectOne(check, db, item);
      var row := Change(New, NewKey(item), item.url.value, None);
      && (HasKey(after, NewKey(item)) <==> db.fuel >= 2)
      && (item.url.value in after.targets <==> db.fuel >= 1)
      && after.fuel == Max(0, db.fuel - 2)
      && (db.fuel >= 2 ==> after.changes == db.changes + [row] && after.deliveries == db.deliveries)
      && (db.fuel >= 2 ==> entry == [Detected(item.url.value, |db.changes|, row, true, None, item)])
  {
    var after := DetectOne(check, db, item).0;
    assert FindChange(db.changes, NewKey(item), 0) == None;
    if db.fuel >= 2 {
      assert after.changes[|db.changes|].key == NewKey(item);
    }
  }

  ghost predicate NoneYet(db: Db, id: nat) {
    forall k :: 0 <= k < |db.deliveries| ==> db.deliveries[k].change != id
  }

  lemma NoneStays(a: Db, b: Db, id: nat)
    requires SameFor(a, b, id) && NoneYet(a, id)
    ensures NoneYet(b, id) && id < |b.changes| && b.changes[id] == a.changes[id]
  {
  }

  /** Detect found the item new with two writes left: its row is stored, and no entry before or behind speaks of it. */
  lemma DetectedNew(check: Check, db: Db, items: seq<Item>, i: nat)
    requires Inv(db) && IsNewItem(check, db, items, i) && DetectAll(check, db, items[..i]).0.fuel >= 2
    ensures var (f1, before) := DetectAll(check, db, items[..i]);
      var (f2, entry) := DetectOne(check, f1, items[i]);
      var (f3, behind) := DetectAll(check, f2, items[i + 1..]);
      var id := |f1.changes|;
      var row := Change(New, NewKey(items[i]), items[i].url.value, None);
      && Inv(f3) && NoneYet(f3, id) && id < |f3.changes| && f3.changes[id] == row
      && entry == [Detected(items[i].url.value, id, row, true, None, items[i])]
      && Avoids(before, id) && Avoids(behind, id)
  {
    hide Inv, DetectAll, DetectOne, SameFor;
    var (f1, before) := DetectAll(check, db, items[..i]);
    var (f2, entry) := DetectOne(check, f1, items[i]);
    var (f3, behind) := DetectAll(check, f2, items[i + 1..]);
    var id := |f1.changes|;
    DetectAllKeeps(check, db, items[..i]);
    BelowIsOther(f1, before);
    ReachItem(check, db, items, i);
    NewItemStep(check, f1, items[i]);
    DetectOneKeeps(check, f1, items[i]);
    NothingBeyond(f1, f2, id);
    var rest := items[i + 1..];
    forall j | 0 <= j < |rest| ensures CannotBring(check, f2, rest[j], f2.changes[id].key) {
      assert rest[j] == items[i + 1 + j];
    }
    DetectAvoids(check, f2, items[i + 1..], id);
    DetectSameFor(check, f2, items[i + 1..], id);
    NoneStays(f2, f3, id);
    DetectAllKeeps(check, f2, items[i + 1..]);
  }

  lemma BelowIsOther(db: Db, detected: seq<Detected>)
    requires db.fuel > 0 && AllOk(db, detected)
    ensures Avoids(detected, |db.changes|)
  {
    forall k | 0 <= k < |detected| ensures detected[k].change != |db.changes| {
      assert DetectedOk(db, detected[k]);
    }
  }

  lemma NothingBeyond(a: Db, b: Db, id: nat)
    requires Inv(a) && b.deliveries == a.deliveries && id == |a.changes|
    ensures NoneYet(b, id)
  {
  }

  lemma ClassifyEntry(check: Check, db: Db, e: Detected)
    requires NoneYet(db, e.change) && e.change < |db.changes| && db.changes[e.change] == e.row
    requires e.row.tags == None && e.advanceTo == None
    ensures var (after, c) := ClassifyAll(check, db, [e]);
      && |c| == 1 && c[0].change == e.change && c[0].advanceTo == None && c[0].row.key == e.row.key
      && NoneYet(after, e.change) && e.change < |after.changes| && after.changes[e.change] == c[0].row
      && (c[0].row.tags.Some? <==> check.classifier.Some? && db.fuel > 0)
  {
    assert [e][1..] == [];
  }

  /** The entry's turn in Classify: the row gets its tags if a write is left for them. */
  lemma ClassifiedNew(check: Check, f3: Db, before: seq<Detected>, e: Detected, behind: seq<Detected>)
    requires Inv(f3) && NoneYet(f3, e.change) && e.change < |f3.changes| && f3.changes[e.change] == e.row
    requires e.row.tags == None && e.advanceTo == None && Avoids(before, e.change) && Avoids(behind, e.change)
    ensures var (t1, c1) := ClassifyAll(check, f3, before);
      var (t2, c) := ClassifyAll(check, t1, [e]);
      var (t3, c3) := ClassifyAll(check, t2, behind);
      && NoneYet(t3, e.change) && Avoids(c1, e.change) && Avoids(c3, e.change)
      && |c| == 1 && c[0].change == e.change && c[0].advanceTo == None
      && e.change < |t3.changes| && t3.changes[e.change] == c[0].row && c[0].row.key == e.row.key
      && (c[0].row.tags.Some? <==> check.classifier.Some? && t1.fuel > 0)
  {
    hide Inv, SameFor;
    var (t1, c1) := ClassifyAll(check, f3, before);
    ClassifySameFor(check, f3, before, e.change);
    NoneStays(f3, t1, e.change);
    ClassifyEntry(check, t1, e);
    var (t2, c) := ClassifyAll(check, t1, [e]);
    hide ClassifyAll;
    ClassifySameFor(check, t2, behind, e.change);
    NoneStays(t2, ClassifyAll(check, t2, behind).0, e.change);
  }

  /** The entry's turn in Notify: two writes for each destination are just enough. */
  lemma NotifiedNew(check: Check, t3: Db, c1: seq<Detected>, d: Detected, c3: seq<Detected>)
    requires Inv(t3) && NoneYet(t3, d.change) && d.change < |t3.changes| && t3.changes[d.change] == d.row
    requires d.advanceTo == None && Avoids(c1, d.change) && Avoids(c3, d.change)
    requires Inv(NotifyAll(check, t3, c1)) && (check.classifier.Some? ==> d.row.tags.Some?)
    requires Inv(NotifyAll(check, NotifyAll(check, NotifyAll(check, t3, c1), [d]), c3))
    ensures var n1 := NotifyAll(check, t3, c1); var n3 := NotifyAll(check, NotifyAll(check, n1, [d]), c3);
      && (IsTold(n3, check, d.change, d.row.key) <==> n1.fuel >= 2 * |Recipients(Destinations(check, d.row))|)
      && (n3.fuel > 0 ==> n1.fuel >= 2 * |Recipients(Destinations(check, d.row))|)
  {
    hide Inv, SameFor, Fanout;
    var destinations := Destinations(check, d.row);
    var n1 := NotifyAll(check, t3, c1);
    NotifySameFor(check, t3, c1, d.change);
    NoneStays(t3, n1, d.change);
    assert [d][1..] == [];
    var n2 := NotifyAll(check, n1, [d]);
    assert n2 == Fanout(n1, d.change, destinations);
    FanoutExact(n1, d.change, destinations);
    assert Missing(n1, d.change, destinations) == Recipients(destinations);
    FanoutFrame(n1, d.change, destinations);
    NotifyFuelDrops(check, n2, c3);
    NotifySameFor(check, n2, c3, d.change);
    ToldIsSame(n2, NotifyAll(check, n2, c3), check, d.change, d.row.key);
  }

  function Recipients(destinations: seq<Destination>): set<Destination> {
    set d | d in destinations
  }

  /** No crash in the item's way: its target and change were written, its tags stored, its last message sent. */
  predicate IsThrough(check: Check, turns: Turns) {
    && turns.detect >= 2
    && (check.classifier.Some? ==> turns.classify >= 1)
    && turns.notify >= 2 * |Recipients(turns.destinations)|
  }

  /** With two writes left for it in Detect, the item is announced and sent in this check exactly if it got through. */
  lemma ToldExactly(check: Check, db: Db, items: seq<Item>, i: nat)
    requires Inv(db) && IsNewItem(check, db, items, i) && TurnsOf(check, db, items, i).detect >= 2
    ensures var after := Processed(check, db, items); var id := |DetectAll(check, db, items[..i]).0.changes|;
      && id < |after.changes| && after.changes[id].key == NewKey(items[i])
      && (IsTold(after, check, id, NewKey(items[i])) <==> IsThrough(check, TurnsOf(check, db, items, i)))
      && (after.fuel > 0 ==> IsThrough(check, TurnsOf(check, db, items, i)))
  {
    hide Inv, SameFor, DetectAll, DetectOne, ClassifyAll, NotifyAll, Processed, IsTold, Destinations;
    var (f1, before) := DetectAll(check, db, items[..i]);
    var (f2, entry) := DetectOne(check, f1, items[i]);
    var (f3, behind) := DetectAll(check, f2, items[i + 1..]);
    var (t1, c1) := ClassifyAll(check, f3, before);
    var (t2, c) := ClassifyAll(check, t1, entry);
    var (t3, c3) := ClassifyAll(check, t2, behind);
    CheckInTurns(check, db, items, i);
    DetectedNew(check, db, items, i);
    ClassifiedNew(check, f3, before, entry[0], behind);
    var n1 := NotifyAll(check, t3, c1);
    var n3 := NotifyAll(check, NotifyAll(check, n1, c), c3);
    TurnsKeepInv(check, db, items, i);
    NotifyAddsNone(check, t3, c1);
    NotifyAddsNone(check, n1, c);
    NotifyAddsNone(check, NotifyAll(check, n1, c), c3);
    assert c == [c[0]];
    if check.classifier.Some? && t1.fuel == 0 {
      UntaggedIsNotTold(n3, check, c[0].change, NewKey(items[i]));
    } else {
      NotifiedNew(check, t3, c1, c[0], c3);
    }
  }

  lemma UntaggedIsNotTold(db: Db, check: Check, id: nat, key: DedupeKey)
    requires id < |db.changes| && db.changes[id].tags == None && check.classifier.Some?
    ensures !IsTold(db, check, id, key)
  {
  }

  /** The invariant holds at each of the item's turns, and writes only get fewer from one to the next. */
  lemma TurnsKeepInv(check: Check, db: Db, items: seq<Item>, i: nat)
    requires Inv(db) && i < |items|
    ensures var (f1, before) := DetectAll(check, db, items[..i]);
      var (f2, entry) := DetectOne(check, f1, items[i]);
      var (f3, behind) := DetectAll(check, f2, items[i + 1..]);
      var (t1, c1) := ClassifyAll(check, f3, before);
      var (t2, c) := ClassifyAll(check, t1, entry);
      var (t3, c3) := ClassifyAll(check, t2, behind);
      var n1 := NotifyAll(check, t3, c1);
      var n3 := NotifyAll(check, NotifyAll(check, n1, c), c3);
      Inv(t3) && Inv(n1) && Inv(n3) && n3.fuel <= n1.fuel <= t3.fuel <= t1.fuel <= f3.fuel <= f2.fuel
  {
    hide Inv, DetectAll, DetectOne, ClassifyAll, NotifyAll, AllOk;
    var (f1, before) := DetectAll(check, db, items[..i]);
    var (f2, entry) := DetectOne(check, f1, items[i]);
    var (f3, behind) := DetectAll(check, f2, items[i + 1..]);
    DetectAllKeeps(check, db, items[..i]);
    DetectOneKeeps(check, f1, items[i]);
    DetectAllKeeps(check, f2, items[i + 1..]);
    OkGrows(f1, f2, before);
    OkGrows(f2, f3, before);
    OkGrows(f2, f3, entry);
    var (t1, c1) := ClassifyAll(check, f3, before);
    var (t2, c) := ClassifyAll(check, t1, entry);
    var (t3, c3) := ClassifyAll(check, t2, behind);
    ClassifyAllKeeps(check, f3, before);
    OkGrows(f3, t1, entry);
    ClassifyAllKeeps(check, t1, entry);
    OkGrows(f3, t1, behind);
    OkGrows(t1, t2, behind);
    ClassifyAllKeeps(check, t2, behind);
    OkGrows(t1, t2, c1);
    OkGrows(t2, t3, c1);
    OkGrows(t2, t3, c);
    var n1 := NotifyAll(check, t3, c1);
    NotifyAllKeeps(check, t3, c1);
    OkGrows(t3, n1, c);
    OkGrows(t3, n1, c3);
    NotifyAllKeeps(check, n1, c);
    OkGrows(n1, NotifyAll(check, n1, c), c3);
    NotifyAllKeeps(check, NotifyAll(check, n1, c), c3);
  }

  // ----- attempts

  /** Whether a key or a target is there after a run is settled by Detect. */
  lemma DetectDecides(check: Check, db: Db, items: seq<Item>, key: DedupeKey, url: Url)
    ensures HasKey(Processed(check, db, items), key) <==> HasKey(DetectAll(check, db, items).0, key)
    ensures url in Processed(check, db, items).targets <==> url in DetectAll(check, db, items).0.targets
  {
    hide DetectAll, ClassifyAll, NotifyAll;
    var (found, detected) := DetectAll(check, db, items);
    var (tagged, classified) := ClassifyAll(check, found, detected);
    ClassifyFrame(check, found, detected);
    NotifyAddsNone(check, tagged, classified);
    NotifyTargets(check, tagged, classified);
    assert url in NotifyAll(check, tagged, classified).targets.Keys <==> url in tagged.targets.Keys;
  }

  /** After one check: the target is there if a write was left for it, the change if a second one was. */
  lemma AfterOneRun(check: Check, db: Db, items: seq<Item>, i: nat)
    requires Inv(db) && IsNewItem(check, db, items, i)
    ensures var after := Processed(check, db, items);
      && (HasKey(after, NewKey(items[i])) <==> TurnsOf(check, db, items, i).detect >= 2)
      && (items[i].url.value in after.targets <==> TurnsOf(check, db, items, i).detect >= 1)
  {
    hide DetectOne, DetectAll, ClassifyAll, NotifyAll, Processed, Inv, HasKey;
    var key, url := NewKey(items[i]), items[i].url.value;
    var f1 := DetectAll(check, db, items[..i]).0;
    var f2 := DetectOne(check, f1, items[i]).0;
    ReachItem(check, db, items, i);
    NewItemStep(check, f1, items[i]);
    CheckInTurns(check, db, items, i);
    DetectDecides(check, db, items, key, url);
    if f1.fuel < 2 {
      CrashedDetect(check, f2, items[i + 1..]);
    } else {
      DetectAllKeeps(check, db, items[..i]);
      DetectOneKeeps(check, f1, items[i]);
      DetectAllKeeps(check, f2, items[i + 1..]);
      KeyStays(f2, DetectAll(check, f2, items[i + 1..]).0, key);
    }
  }

  lemma SameChangesSameKeys(a: Db, b: Db, key: DedupeKey)
    requires a.changes == b.changes
    ensures HasKey(a, key) <==> HasKey(b, key)
  {
  }

  lemma OnlyOneIsTold(db: Db, check: Check, id: nat, key: DedupeKey)
    requires Inv(db) && id < |db.changes| && db.changes[id].key == key
    ensures (exists j: nat :: IsTold(db, check, j, key)) <==> IsTold(db, check, id, key)
  {
    hide Destinations;
    forall j: nat | IsTold(db, check, j, key) ensures j == id {
    }
  }

  lemma NoKeyNotTold(db: Db, check: Check, key: DedupeKey)
    requires !HasKey(db, key)
    ensures forall j: nat :: !IsTold(db, check, j, key)
  {
  }

  /** A complete check tells everybody about a new item. */
  lemma CompleteRunTells(check: Check, db: Db, items: seq<Item>, i: nat)
    requires Inv(db) && IsNewItem(check, db, items, i) && Processed(check, db, items).fuel > 0
    ensures TurnsOf(check, db, items, i).detect >= 2
    ensures exists id: nat :: IsTold(Processed(check, db, items), check, id, NewKey(items[i]))
  {
    hide Inv, DetectAll, DetectOne, ClassifyAll, NotifyAll, Processed, IsTold, HasKey;
    var f1 := DetectAll(check, db, items[..i]).0;
    ReachItem(check, db, items, i);
    NewItemStep(check, f1, items[i]);
    CheckInTurns(check, db, items, i);
    TurnsKeepInv(check, db, items, i);
    assert f1.fuel >= 2;
    ToldExactly(check, db, items, i);
  }

  /** The item's turns in the first attempt that has a write left for it in Detect. */
  function FirstTurns(check: Check, db: Db, items: seq<Item>, i: nat, fuels: seq<nat>, n: nat): Option<Turns>
    requires i < |items| && n <= |fuels|
  {
    if n == 0 then None
    else
      var earlier := FirstTurns(check, db, items, i, fuels, n - 1);
      var turns := TurnsOf(check, Retried(check, db, items, fuels, n - 1).(fuel := fuels[n - 1]), items, i);
      if earlier == None && turns.detect >= 1 then Some(turns) else earlier
  }

  ghost predicate SomebodyTold(db: Db, check: Check, key: DedupeKey) {
    exists id: nat :: IsTold(db, check, id, key)
  }

  /** No attempt has reached the item, or the first that did has settled what becomes of it. */
  ghost predicate IsSettled(check: Check, db: Db, items: seq<Item>, i: nat, turns: Option<Turns>)
    requires i < |items| && items[i].url.Some?
  {
    match turns
    case None => IsNewItem(check, db, items, i)
    case Some(t) =>
      && items[i].url.value in db.targets
      && (HasKey(db, NewKey(items[i])) <==> t.detect >= 2)
      && (SomebodyTold(db, check, NewKey(items[i])) <==> IsThrough(check, t))
  }

  /** The first attempt with a write left for the item settles it. */
  lemma ReachedSettles(check: Check, db: Db, items: seq<Item>, i: nat)
    requires Inv(db) && IsNewItem(check, db, items, i)
    ensures var turns := TurnsOf(check, db, items, i);
      IsSettled(check, Processed(check, db, items), items, i, if turns.detect >= 1 then Some(turns) else None)
    ensures Processed(check, db, items).fuel > 0 ==> TurnsOf(check, db, items, i).detect >= 1
  {
    hide Inv, Processed, TurnsOf, HasKey, IsTold, IsThrough;
    var after, key := Processed(check, db, items), NewKey(items[i]);
    AfterOneRun(check, db, items, i);
    if after.fuel > 0 {
      CompleteRunTells(check, db, items, i);
    }
    if TurnsOf(check, db, items, i).detect >= 2 {
      ToldExactly(check, db, items, i);
      ProcessedKeeps(check, db, items);
      OnlyOneIsTold(after, check, |DetectAll(check, db, items[..i]).0.changes|, key);
    } else {
      NoKeyNotTold(after, check, key);
      NotThrough(check, TurnsOf(check, db, items, i));
    }
  }

  lemma NotThrough(check: Check, turns: Turns)
    requires turns.detect < 2
    ensures !IsThrough(check, turns)
  {
  }

  /** Once the target is there the item is neither new nor brings its key again, so every attempt leaves it as it is. */
  lemma StaysSettled(check: Check, db: Db, items: seq<Item>, i: nat, turns: Turns)
    requires Inv(db) && OnlyOneHasKey(items, i) && !IsSkipped(check, items[i])
    requires IsSettled(check, db, items, i, Some(turns))
    ensures IsSettled(check, Processed(check, db, items), items, i, Some(turns))
  {
    hide Inv, Processed, IsTold, IsThrough, SameFor;
    var after, key := Processed(check, db, items), NewKey(items[i]);
    ProcessedKeeps(check, db, items);
    DetectDecides(check, db, items, key, items[i].url.value);
    DetectTargets(check, db, items, items[i].url.value);
    if id :| 0 <= id < |db.changes| && db.changes[id].key == key {
      forall j | 0 <= j < |items| ensures CannotBring(check, db, items[j], db.changes[id].key) {
      }
      CheckSameFor(check, db, items, id);
      RowThere(db, after, id);
      ToldIsSame(db, after, check, id, key);
      OnlyOneIsTold(db, check, id, key);
      OnlyOneIsTold(after, check, id, key);
    } else {
      NoOtherBringsKey(check, db, items, items[i].stableKey);
      NoKeyNotTold(db, check, key);
      NoKeyNotTold(after, check, key);
    }
  }

  lemma ToldWhateverTheFuel(a: Db, b: Db, check: Check, id: nat, key: DedupeKey)
    requires b == a.(fuel := b.fuel)
    ensures IsTold(a, check, id, key) <==> IsTold(b, check, id, key)
  {
  }

  lemma RefuelledSettled(check: Check, db: Db, fuel: nat, items: seq<Item>, i: nat, turns: Option<Turns>)
    requires i < |items| && items[i].url.Some? && IsSettled(check, db, items, i, turns)
    ensures IsSettled(check, db.(fuel := fuel), items, i, turns)
  {
    hide IsTold, IsThrough;
    var key := NewKey(items[i]);
    forall id: nat ensures IsTold(db.(fuel := fuel), check, id, key) <==> IsTold(db, check, id, key) {
      ToldWhateverTheFuel(db, db.(fuel := fuel), check, id, key);
    }
  }

  lemma {:induction false} AttemptsSettle(check: Check, db: Db, items: seq<Item>, i: nat, fuels: seq<nat>, n: nat)
    requires Inv(db) && IsNewItem(check, db, items, i) && n <= |fuels|
    ensures IsSettled(check, Retried(check, db, items, fuels, n), items, i, FirstTurns(check, db, items, i, fuels, n))
    ensures n > 0 && Retried(check, db, items, fuels, n).fuel > 0 ==> FirstTurns(check, db, items, i, fuels, n).Some?
  {
    hide Inv, Processed, IsSettled, TurnsOf, HasKey;
    if n == 0 {
      SettledAtFirst(check, db, items, i);
    } else {
      AttemptsSettle(check, db, items, i, fuels, n - 1);
      RetriedInv(check, db, items, fuels, n - 1);
      var before := Retried(check, db, items, fuels, n - 1);
      var again := before.(fuel := fuels[n - 1]);
      var earlier := FirstTurns(check, db, items, i, fuels, n - 1);
      RefuelKeepsInv(before, fuels[n - 1]);
      RefuelledSettled(check, before, fuels[n - 1], items, i, earlier);
      if earlier == None {
        StillNew(check, again, items, i);
        ReachedSettles(check, again, items, i);
      } else {
        StaysSettled(check, again, items, i, earlier.value);
      }
    }
  }

  lemma SettledAtFirst(check: Check, db: Db, items: seq<Item>, i: nat)
    requires IsNewItem(check, db, items, i)
    ensures IsSettled(check, db, items, i, None)
  {
  }

  lemma StillNew(check: Check, db: Db, items: seq<Item>, i: nat)
    requires i < |items| && items[i].url.Some? && IsSettled(check, db, items, i, None)
    ensures IsNewItem(check, db, items, i)
  {
  }

  /**
    Attempts cut short anywhere: a new item has its change exactly if the first of them that had a write left for it in
    Detect had two.
  */
  lemma NewItemIsStoredExactly(check: Check, db: Db, items: seq<Item>, i: nat, fuels: seq<nat>)
    requires Inv(db) && IsNewItem(check, db, items, i)
    ensures var first := FirstTurns(check, db, items, i, fuels, |fuels|);
      HasKey(Retried(check, db, items, fuels, |fuels|), NewKey(items[i])) <==> first.Some? && first.value.detect >= 2
  {
    hide Inv, Retried, FirstTurns, HasKey;
    AttemptsSettle(check, db, items, i, fuels, |fuels|);
  }

  /**
    Everybody subscribed is told of a new item exactly if the first attempt that had a write left for it in Detect went
    on until its last message was sent. A complete attempt settles it: if it is not told by then, it never is.
  */
  lemma NewItemIsLostExactly(check: Check, db: Db, items: seq<Item>, i: nat, fuels: seq<nat>)
    requires Inv(db) && IsNewItem(check, db, items, i)
    ensures var after := Retried(check, db, items, fuels, |fuels|);
      var first := FirstTurns(check, db, items, i, fuels, |fuels|);
      && (SomebodyTold(after, check, NewKey(items[i])) <==> first.Some? && IsThrough(check, first.value))
      && (fuels != [] && after.fuel > 0 ==> first.Some?)
  {
    hide Inv, Retried, FirstTurns, IsTold, IsThrough;
    AttemptsSettle(check, db, items, i, fuels, |fuels|);
    if FirstTurns(check, db, items, i, fuels, |fuels|) == None {
      NoKeyNotTold(Retried(check, db, items, fuels, |fuels|), check, NewKey(items[i]));
    }
  }

  // ----- two ways to lose one

  /** A crash right after the target was written: the item never gets a change. */
  lemma NewItemCanBeLost(check: Check, fuel: nat)
    requires !check.isBaseline && check.isAllowed("u") && fuel > 0
    ensures var items := [Item(Some("u"), "k", Some(5))];
      var crashed := Processed(check, EMPTY.(fuel := 1), items);
      && crashed.targets == map["u" := Some(5)] && crashed.changes == []
      && Processed(check, crashed.(fuel := fuel), items).changes == []
  {
    CrashIsFinal(check, 1, fuel);
  }

  /** A crash right after the change was written: it is stored, but nobody is ever told, although "d" is subscribed. */
  lemma StoredButNeverTold(check: Check, fuel: nat)
    requires !check.isBaseline && check.isAllowed("u") && fuel > 0
    requires check.matching(New, []) == ["d"] && check.classifier == None
    ensures var items := [Item(Some("u"), "k", Some(5))];
      var crashed := Processed(check, EMPTY.(fuel := 2), items);
      var again := Processed(check, crashed.(fuel := fuel), items);
      && again.changes == [Change(New, DedupeKey("k", None), "u", None)] && again.deliveries == [] && again.queue == []
      && again.fuel == fuel
  {
    CrashIsFinal(check, 2, fuel);
  }

  lemma CrashIsFinal(check: Check, writes: nat, fuel: nat)
    requires !check.isBaseline && check.isAllowed("u") && 1 <= writes <= 2
    ensures var items := [Item(Some("u"), "k", Some(5))];
      var crashed := Processed(check, EMPTY.(fuel := writes), items);
      && crashed == EMPTY.(targets := map["u" := Some(5)], changes := crashed.changes)
      && crashed.changes == (if writes == 1 then [] else [Change(New, DedupeKey("k", None), "u", None)])
      && Processed(check, crashed.(fuel := fuel), items) == crashed.(fuel := fuel)
  {
    hide Fanout, Destinations;
    var items := [Item(Some("u"), "k", Some(5))];
    assert items[1..] == [];
    var start := EMPTY.(fuel := writes);
    var (crashed, detected) := DetectAll(check, start, items);
    assert crashed == DetectOne(check, start, items[0]).0;
    CrashedStays(check, crashed, detected);
    var again := crashed.(fuel := fuel);
    NothingNew(check, again, items);
    NothingDetected(check, again, items);
  }

  lemma {:induction false} CrashedStays(check: Check, db: Db, detected: seq<Detected>)
    requires db.fuel == 0
    ensures ClassifyAll(check, db, detected).0 == db
    ensures NotifyAll(check, db, ClassifyAll(check, db, detected).1) == db
    decreases detected
  {
    if detected != [] {
      var (first, d) := ClassifyOne(check, db, detected[0]);
      CrashedStays(check, db, detected[1..]);
      CrashedFanout(db, d.change, Destinations(check, d.row));
      assert ClassifyAll(check, db, detected).1[1..] == ClassifyAll(check, db, detected[1..]).1;
    }
  }
}
