/**
  How the items of a feed become targets, changes and deliveries (src/pipeline/feed.ts, src/pipeline/classify.ts,
  src/pipeline/notify.ts). Detect writes every change first, Classify tags them, and Notify creates and sends the
  deliveries of a change before it moves the target's watermark.
*/
module Feed {
  import opened Common
  import opened Database

  datatype Item = Item(url: Option<Url>, stableKey: string, updatedAt: Option<Time>)

  /** What one check goes by: URL policy, tagging rules if any, and which destinations are subscribed to what. */
  datatype Check = Check(
    isBaseline: bool,
    isAllowed: Url -> bool,
    classifier: Option<Item -> seq<Tag>>,
    matching: (Kind, seq<Tag>) -> seq<Destination>)

  /** A change found in this check: its row as last read, and the watermark to move to once it is announced. */
  datatype Detected = Detected(url: Url, change: nat, row: Change, inserted: bool, advanceTo: Option<Time>, item: Item)

  const MAX_FEED_ITEMS_PER_CHECK := 2000

  // ----- Detect

  predicate IsSkipped(check: Check, item: Item) {
    item.url == None || !check.isAllowed(item.url.value)
  }

  /** The row an insert answers with: the stored one, or what was to be written if the crash came first. */
  function RowAt(db: Db, id: nat, written: Change): Change {
    if id < |db.changes| then db.changes[id] else written
  }

  function Recorded(db: Db, change: Change, advanceTo: Option<Time>, item: Item): (Db, seq<Detected>) {
    var (after, id, inserted) := AfterInsert(db, change);
    (after, [Detected(change.url, id, RowAt(after, id, change), inserted, advanceTo, item)])
  }

  function DetectOne(check: Check, db: Db, item: Item): (Db, seq<Detected>) {
    if IsSkipped(check, item) then (db, [])
    else
      var url := item.url.value;
      var isNew := url !in db.targets;
      var known := AfterUpsert(db, url, if isNew then Some(item.updatedAt) else None);
      if check.isBaseline then (known, [])
      else if isNew then Recorded(known, Change(New, DedupeKey(item.stableKey, None), url, None), None, item)
      else if item.updatedAt.Some? && item.updatedAt != db.targets[url] then
        Recorded(known, Change(Updated, DedupeKey(item.stableKey, item.updatedAt), url, None), item.updatedAt, item)
      else (known, [])
  }

  function DetectAll(check: Check, db: Db, items: seq<Item>): (Db, seq<Detected>)
    decreases items
  {
    if items == [] then (db, [])
    else
      var (first, found) := DetectOne(check, db, items[0]);
      var (last, more) := DetectAll(check, first, items[1..]);
      (last, found + more)
  }

  // ----- Classify

  function ClassifyOne(check: Check, db: Db, d: Detected): (Db, Detected) {
    if check.classifier == None || d.row.tags.Some? then (db, d)
    else
      var after := AfterTags(db, d.change, check.classifier.value(d.item));
      (after, d.(row := d.row.(tags := TagsOf(after, d.change))))
  }

  function ClassifyAll(check: Check, db: Db, detected: seq<Detected>): (r: (Db, seq<Detected>))
    ensures |r.1| == |detected|
    decreases detected
  {
    if detected == [] then (db, [])
    else
      var (first, d) := ClassifyOne(check, db, detected[0]);
      var (last, more) := ClassifyAll(check, first, detected[1..]);
      (last, [d] + more)
  }

  // ----- Notify

  function Destinations(check: Check, row: Change): seq<Destination> {
    check.matching(row.kind, if row.tags.Some? then row.tags.value else [])
  }

  function Fanout(db: Db, change: nat, destinations: seq<Destination>): Db
    decreases destinations
  {
    if destinations == [] then db
    else Fanout(AfterDelivery(db, Delivery(change, destinations[0])), change, destinations[1..])
  }

  function NotifyOne(check: Check, db: Db, d: Detected): Db {
    var destinations := Destinations(check, d.row);
    var after := Fanout(db, d.change, destinations);
    if d.advanceTo == None then after
    else AfterAdvance(after, d.url, d.advanceTo.value)
  }

  function NotifyAll(check: Check, db: Db, detected: seq<Detected>): Db
    decreases detected
  {
    if detected == [] then db else NotifyAll(check, NotifyOne(check, db, detected[0]), detected[1..])
  }

  function InsertedIds(detected: seq<Detected>): seq<nat> {
    if detected == [] then []
    else (if detected[0].inserted then [detected[0].change] else []) + InsertedIds(detected[1..])
  }

  // ----- one check

  function ToProcess(items: seq<Item>, maxItems: nat): (chosen: seq<Item>)
    ensures chosen <= items && |chosen| <= maxItems && (chosen == items || |chosen| == maxItems)
  {
    items[..Min(|items|, maxItems)]
  }

  function Processed(check: Check, db: Db, items: seq<Item>): Db {
    var (found, detected) := DetectAll(check, db, items);
    var (tagged, classified) := ClassifyAll(check, found, detected);
    NotifyAll(check, tagged, classified)
  }

  /** The changes a check reports as its own. */
  function Reported(check: Check, db: Db, items: seq<Item>): seq<nat> {
    var (found, detected) := DetectAll(check, db, items);
    InsertedIds(ClassifyAll(check, found, detected).1)
  }

  method ProcessFeedItems(tables: Tables, check: Check, items: seq<Item>, maxItems: nat)
    returns (truncatedCount: nat, changeIds: seq<nat>)
    modifies tables
    ensures tables.Value() == Processed(check, old(tables.Value()), ToProcess(items, maxItems))
    ensures truncatedCount == |items| - |ToProcess(items, maxItems)|
    ensures changeIds == Reported(check, old(tables.Value()), ToProcess(items, maxItems))
  {
    var detected;
    detected, truncatedCount := DetectFeedChanges(tables, check, items, maxItems);
    detected := ClassifyDetectedChanges(tables, check, detected);
    changeIds := NotifyDetectedChanges(tables, check, detected);
  }

  method DetectFeedChanges(tables: Tables, check: Check, items: seq<Item>, maxItems: nat)
    returns (detected: seq<Detected>, truncatedCount: nat)
    modifies tables
    ensures (tables.Value(), detected) == DetectAll(check, old(tables.Value()), ToProcess(items, maxItems))
    ensures truncatedCount == |items| - |ToProcess(items, maxItems)|
  {
    ghost var start := tables.Value();
    var truncated := |items| > maxItems;
    var toProcess := if truncated then items[..maxItems] else items;
    truncatedCount := if truncated then |items| - |toProcess| else 0;
    assert toProcess == ToProcess(items, maxItems);
    detected := [];
    assert toProcess[0..] == toProcess;
    for i := 0 to |toProcess|
      invariant DetectAll(check, tables.Value(), toProcess[i..]).0 == DetectAll(check, start, toProcess).0
      invariant detected + DetectAll(check, tables.Value(), toProcess[i..]).1 == DetectAll(check, start, toProcess).1
    {
      hide DetectAll, DetectOne, AfterInsert, AfterUpsert;
      DetectStep(check, tables.Value(), toProcess, i, detected);
      var found := DetectItem(tables, check, toProcess[i]);
      detected := detected + found;
    }
    assert DetectAll(check, tables.Value(), []) == (tables.Value(), []) && detected + [] == detected;
  }

  lemma DetectStep(check: Check, db: Db, items: seq<Item>, i: nat, before: seq<Detected>)
    requires i < |items|
    ensures var (first, found) := DetectOne(check, db, items[i]);
      && DetectAll(check, db, items[i..]).0 == DetectAll(check, first, items[i + 1..]).0
      && before + DetectAll(check, db, items[i..]).1 == before + found + DetectAll(check, first, items[i + 1..]).1
  {
    hide DetectOne;
    assert items[i..][1..] == items[i + 1..];
    var (first, found) := DetectOne(check, db, items[i]);
    var more := DetectAll(check, first, items[i + 1..]).1;
    assert before + (found + more) == before + found + more;
  }

  method DetectItem(tables: Tables, check: Check, item: Item) returns (found: seq<Detected>)
    modifies tables
    ensures (tables.Value(), found) == DetectOne(check, old(tables.Value()), item)
  {
    hide AfterInsert, AfterUpsert;
    if item.url == None { return []; }
    var url := item.url.value;
    if !check.isAllowed(url) { return []; }
    var isNew := url !in tables.targets;
    var previous := if isNew then None else tables.targets[url];
    tables.UpsertTarget(url, if isNew then Some(item.updatedAt) else None);
    if check.isBaseline { return []; }
    if isNew {
      var change := Change(New, DedupeKey(item.stableKey, None), url, None);
      var id, inserted := tables.InsertChangeIfNew(change);
      return [Detected(url, id, RowAt(tables.Value(), id, change), inserted, None, item)];
    }
    if item.updatedAt.Some? && item.updatedAt != previous {
      var change := Change(Updated, DedupeKey(item.stableKey, item.updatedAt), url, None);
      var id, inserted := tables.InsertChangeIfNew(change);
      return [Detected(url, id, RowAt(tables.Value(), id, change), inserted, item.updatedAt, item)];
    }
    return [];
  }

  method ClassifyDetectedChanges(tables: Tables, check: Check, detected: seq<Detected>)
    returns (classified: seq<Detected>)
    modifies tables
    ensures (tables.Value(), classified) == ClassifyAll(check, old(tables.Value()), detected)
  {
    ghost var start := tables.Value();
    classified := [];
    assert detected[0..] == detected;
    for i := 0 to |detected|
      invariant ClassifyAll(check, tables.Value(), detected[i..]).0 == ClassifyAll(check, start, detected).0
      invariant classified + ClassifyAll(check, tables.Value(), detected[i..]).1
        == ClassifyAll(check, start, detected).1
    {
      ghost var db, before := tables.Value(), classified;
      var d := detected[i];
      if check.classifier.Some? && d.row.tags == None {
        var tags := tables.SetChangeTagsIfNull(d.change, check.classifier.value(d.item));
        d := d.(row := d.row.(tags := tags));
      }
      classified := classified + [d];
      hide AfterTags, ClassifyOne;
      ClassifyStep(check, db, detected, i, before);
    }
    assert ClassifyAll(check, tables.Value(), []) == (tables.Value(), []) && classified + [] == classified;
  }

  lemma ClassifyStep(check: Check, db: Db, detected: seq<Detected>, i: nat, before: seq<Detected>)
    requires i < |detected|
    ensures var (first, d) := ClassifyOne(check, db, detected[i]);
      && ClassifyAll(check, db, detected[i..]).0 == ClassifyAll(check, first, detected[i + 1..]).0
      && before + ClassifyAll(check, db, detected[i..]).1
        == before + [d] + ClassifyAll(check, first, detected[i + 1..]).1
  {
    hide ClassifyOne;
    assert detected[i..][1..] == detected[i + 1..];
    var (first, d) := ClassifyOne(check, db, detected[i]);
    var more := ClassifyAll(check, first, detected[i + 1..]).1;
    assert before + ([d] + more) == before + [d] + more;
  }

  method FanoutChange(tables: Tables, check: Check, change: nat, row: Change)
    modifies tables
    ensures tables.Value() == Fanout(old(tables.Value()), change, Destinations(check, row))
  {
    ghost var start := tables.Value();
    var destinations := Destinations(check, row);
    for i := 0 to |destinations|
      invariant Fanout(tables.Value(), change, destinations[i..]) == Fanout(start, change, destinations)
    {
      assert destinations[i..][1..] == destinations[i + 1..];
      var delivery, inserted := tables.CreateDeliveryIfNew(change, destinations[i]);
      if inserted {
        tables.Send(delivery);
      }
    }
  }

  method NotifyDetectedChanges(tables: Tables, check: Check, detected: seq<Detected>) returns (changeIds: seq<nat>)
    modifies tables
    ensures tables.Value() == NotifyAll(check, old(tables.Value()), detected)
    ensures changeIds == InsertedIds(detected)
  {
    ghost var start := tables.Value();
    changeIds := [];
    assert detected[0..] == detected;
    for i := 0 to |detected|
      invariant NotifyAll(check, tables.Value(), detected[i..]) == NotifyAll(check, start, detected)
      invariant changeIds + InsertedIds(detected[i..]) == InsertedIds(detected)
    {
      hide Fanout, AfterAdvance, NotifyAll, InsertedIds, Destinations;
      NotifyStep(check, tables.Value(), detected, i, changeIds);
      var d := detected[i];
      FanoutChange(tables, check, d.change, d.row);
      if d.inserted { changeIds := changeIds + [d.change]; }
      if d.advanceTo.Some? {
        tables.SetTargetLastKnownUpdatedAt(d.url, d.advanceTo.value);
      }
    }
    assert detected[|detected|..] == [] && changeIds + [] == changeIds;
  }

  lemma NotifyStep(check: Check, db: Db, detected: seq<Detected>, i: nat, before: seq<nat>)
    requires i < |detected|
    ensures NotifyAll(check, db, detected[i..])
      == NotifyAll(check, NotifyOne(check, db, detected[i]), detected[i + 1..])
    ensures before + InsertedIds(detected[i..])
         == (if detected[i].inserted then before + [detected[i].change] else before) + InsertedIds(detected[i + 1..])
  {
    hide NotifyOne;
    assert detected[i..][1..] == detected[i + 1..];
    var ids := InsertedIds(detected[i + 1..]);
    Associative(before, [detected[i].change], ids);
    assert [] + ids == ids;
  }

  // ----- what a check keeps, crash or not

  /** The entry speaks of a stored row, unless the crash has already come. */
  ghost predicate DetectedOk(db: Db, d: Detected) {
    db.fuel > 0 ==>
      && d.change < |db.changes|
      && d.row == db.changes[d.change].(tags := d.row.tags) && TagsKept(d.row.tags, db.changes[d.change].tags)
  }

  ghost predicate AllOk(db: Db, detected: seq<Detected>) {
    forall i :: 0 <= i < |detected| ==> DetectedOk(db, detected[i])
  }

  lemma OkGrows(a: Db, b: Db, detected: seq<Detected>)
    requires Grows(a, b) && AllOk(a, detected)
    ensures AllOk(b, detected)
  {
    forall i | 0 <= i < |detected| ensures DetectedOk(b, detected[i]) {
      assert DetectedOk(a, detected[i]);
    }
  }

  lemma RecordedKeeps(db: Db, change: Change, advanceTo: Option<Time>, item: Item)
    requires Inv(db)
    ensures var (after, found) := Recorded(db, change, advanceTo, item);
      Inv(after) && Grows(db, after) && AllOk(after, found)
  {
    hide Inv;
    InsertInv(db, change);
    InsertGrows(db, change);
  }

  lemma DetectOneKeeps(check: Check, db: Db, item: Item)
    requires Inv(db)
    ensures var (after, found) := DetectOne(check, db, item); Inv(after) && Grows(db, after) && AllOk(after, found)
  {
    hide Inv, Recorded, AfterUpsert, Grows;
    if IsSkipped(check, item) {
      GrowsSelf(db);
    } else {
      var url := item.url.value;
      var isNew := url !in db.targets;
      var initially := if isNew then Some(item.updatedAt) else None;
      var known := AfterUpsert(db, url, initially);
      UpsertInv(db, url, initially);
      UpsertGrows(db, url, initially);
      var key := DedupeKey(item.stableKey, if isNew then None else item.updatedAt);
      var change := Change(if isNew then New else Updated, key, url, None);
      var advanceTo := if isNew then None else item.updatedAt;
      RecordedKeeps(known, change, advanceTo, item);
      GrowsTrans(db, known, Recorded(known, change, advanceTo, item).0);
    }
  }

  lemma GrowsSelf(db: Db)
    ensures Grows(db, db)
  {
  }

  lemma {:induction false} DetectAllKeeps(check: Check, db: Db, items: seq<Item>)
    requires Inv(db)
    ensures var (after, detected) := DetectAll(check, db, items);
      Inv(after) && Grows(db, after) && AllOk(after, detected)
    decreases items
  {
    hide Inv, Grows, DetectOne, DetectedOk;
    if items == [] {
      GrowsSelf(db);
    } else {
      var (first, found) := DetectOne(check, db, items[0]);
      DetectOneKeeps(check, db, items[0]);
      DetectAllKeeps(check, first, items[1..]);
      var (last, more) := DetectAll(check, first, items[1..]);
      GrowsTrans(db, first, last);
      OkGrows(first, last, found);
    }
  }

  lemma ClassifyOneKeeps(check: Check, db: Db, d: Detected)
    requires Inv(db) && DetectedOk(db, d)
    ensures var (after, e) := ClassifyOne(check, db, d); Inv(after) && Grows(db, after) && DetectedOk(after, e)
  {
    hide Inv;
    if check.classifier.Some? && d.row.tags == None {
      TagsInv(db, d.change, check.classifier.value(d.item));
      TagsGrow(db, d.change, check.classifier.value(d.item));
    }
  }

  lemma {:induction false} ClassifyAllKeeps(check: Check, db: Db, detected: seq<Detected>)
    requires Inv(db) && AllOk(db, detected)
    ensures var (after, classified) := ClassifyAll(check, db, detected);
      Inv(after) && Grows(db, after) && AllOk(after, classified)
    decreases detected
  {
    hide Inv, Grows, ClassifyOne, DetectedOk;
    if detected == [] {
      GrowsSelf(db);
    } else {
      var (first, d) := ClassifyOne(check, db, detected[0]);
      ClassifyOneKeeps(check, db, detected[0]);
      OkGrows(db, first, detected[1..]);
      ClassifyAllKeeps(check, first, detected[1..]);
      var (last, more) := ClassifyAll(check, first, detected[1..]);
      GrowsTrans(db, first, last);
      OkGrows(first, last, [d]);
      assert DetectedOk(last, [d][0]);
    }
  }

  /** With writes still to come, none was lost: every destination has its delivery. */
  ghost predicate HasDeliveries(db: Db, change: nat, destinations: seq<Destination>) {
    forall k :: 0 <= k < |destinations| ==> Delivery(change, destinations[k]) in db.deliveries
  }

  lemma {:induction false} FanoutKeeps(db: Db, change: nat, destinations: seq<Destination>)
    requires Inv(db) && (db.fuel > 0 ==> change < |db.changes|)
    ensures var after := Fanout(db, change, destinations);
      && Inv(after) && Grows(db, after)
      && (after.fuel > 0 ==> HasDeliveries(after, change, destinations))
    decreases destinations
  {
    hide Inv, AfterDelivery;
    if destinations != [] {
      var d := Delivery(change, destinations[0]);
      var first := AfterDelivery(db, d);
      DeliveryInv(db, d);
      DeliveryGrows(db, d);
      FanoutKeeps(first, change, destinations[1..]);
      GrowsTrans(db, first, Fanout(first, change, destinations[1..]));
    }
  }

  lemma {:induction false} FanoutFrame(db: Db, change: nat, destinations: seq<Destination>)
    ensures var after := Fanout(db, change, destinations);
      after.changes == db.changes && after.targets == db.targets && after.fuel <= db.fuel
    decreases destinations
  {
    if destinations != [] {
      FanoutFrame(AfterDelivery(db, Delivery(change, destinations[0])), change, destinations[1..]);
    }
  }

  lemma NotifyOneKeeps(check: Check, db: Db, d: Detected)
    requires Inv(db) && DetectedOk(db, d)
    ensures Inv(NotifyOne(check, db, d)) && Grows(db, NotifyOne(check, db, d))
    ensures NotifyOne(check, db, d).fuel > 0 ==>
      HasDeliveries(NotifyOne(check, db, d), d.change, Destinations(check, d.row))
  {
    hide Inv, Fanout, Destinations, AfterAdvance;
    var destinations := Destinations(check, d.row);
    var after := Fanout(db, d.change, destinations);
    FanoutKeeps(db, d.change, destinations);
    if d.advanceTo.Some? {
      AdvanceInv(after, d.url, d.advanceTo.value);
      AdvanceGrows(after, d.url, d.advanceTo.value);
      GrowsTrans(db, after, AfterAdvance(after, d.url, d.advanceTo.value));
    }
  }

  lemma {:induction false} NotifyAllKeeps(check: Check, db: Db, detected: seq<Detected>)
    requires Inv(db) && AllOk(db, detected)
    ensures Inv(NotifyAll(check, db, detected)) && Grows(db, NotifyAll(check, db, detected))
    decreases detected
  {
    hide Inv, Grows, NotifyOne, DetectedOk, HasDeliveries;
    if detected == [] {
      GrowsSelf(db);
    } else {
      var first := NotifyOne(check, db, detected[0]);
      NotifyOneKeeps(check, db, detected[0]);
      OkGrows(db, first, detected[1..]);
      NotifyAllKeeps(check, first, detected[1..]);
      GrowsTrans(db, first, NotifyAll(check, first, detected[1..]));
    }
  }

  lemma ProcessedKeeps(check: Check, db: Db, items: seq<Item>)
    requires Inv(db)
    ensures Inv(Processed(check, db, items)) && Grows(db, Processed(check, db, items))
  {
    hide Inv, Grows, DetectAll, ClassifyAll, NotifyAll, AllOk;
    var (found, detected) := DetectAll(check, db, items);
    DetectAllKeeps(check, db, items);
    var (tagged, classified) := ClassifyAll(check, found, detected);
    ClassifyAllKeeps(check, found, detected);
    NotifyAllKeeps(check, tagged, classified);
    GrowsTrans(db, found, tagged);
    GrowsTrans(db, tagged, NotifyAll(check, tagged, classified));
  }

  // ----- what a check reports

  /** `count` numbers from `from` on. */
  function Range(from: nat, count: nat): seq<nat>
    decreases count
  {
    if count == 0 then [] else [from] + Range(from + 1, count - 1)
  }

  lemma {:induction false} RangeConcat(from: nat, m: nat, n: nat)
    ensures Range(from, m) + Range(from + m, n) == Range(from, m + n)
    decreases m
  {
    if m == 0 {
      assert [] + Range(from, n) == Range(from, n);
    } else {
      RangeConcat(from + 1, m - 1, n);
      Associative([from], Range(from + 1, m - 1), Range(from + m, n));
    }
  }

  lemma IdsHead(d: Detected, rest: seq<Detected>)
    ensures InsertedIds([d] + rest) == InsertedIds([d]) + InsertedIds(rest)
    ensures InsertedIds([]) == []
  {
    assert ([d] + rest)[1..] == rest && [d][1..] == [];
  }

  lemma {:induction false} IdsConcat(a: seq<Detected>, b: seq<Detected>)
    ensures InsertedIds(a + b) == InsertedIds(a) + InsertedIds(b)
  {
    if a == [] {
      assert a + b == b;
    } else {
      hide InsertedIds;
      IdsConcat(a[1..], b);
      IdsHead(a[0], a[1..]);
      IdsHead(a[0], a[1..] + b);
      assert [a[0]] + a[1..] == a && [a[0]] + (a[1..] + b) == a + b;
      Associative(InsertedIds([a[0]]), InsertedIds(a[1..]), InsertedIds(b));
    }
  }

  lemma DetectOneReports(check: Check, db: Db, item: Item)
    ensures var (after, found) := DetectOne(check, db, item);
      |db.changes| <= |after.changes| && InsertedIds(found) == Range(|db.changes|, |after.changes| - |db.changes|)
  {
    var (after, found) := DetectOne(check, db, item);
    if |found| == 1 {
      assert found[1..] == [];
    }
  }

  lemma {:induction false} DetectReports(check: Check, db: Db, items: seq<Item>)
    ensures var (after, detected) := DetectAll(check, db, items);
      |db.changes| <= |after.changes| && InsertedIds(detected) == Range(|db.changes|, |after.changes| - |db.changes|)
    decreases items
  {
    hide DetectOne, InsertedIds, Range;
    if items == [] {
      NothingReported(|db.changes|);
    } else {
      var (first, found) := DetectOne(check, db, items[0]);
      var (last, more) := DetectAll(check, first, items[1..]);
      DetectOneReports(check, db, items[0]);
      DetectReports(check, first, items[1..]);
      IdsConcat(found, more);
      RangeConcat(|db.changes|, |first.changes| - |db.changes|, |last.changes| - |first.changes|);
    }
  }

  lemma NothingReported(n: nat)
    ensures InsertedIds([]) == Range(n, 0)
  {
  }

  lemma {:induction false} ClassifyReports(check: Check, db: Db, detected: seq<Detected>)
    ensures var (after, classified) := ClassifyAll(check, db, detected);
      |after.changes| == |db.changes| && InsertedIds(classified) == InsertedIds(detected)
    decreases detected
  {
    if detected != [] {
      ClassifyReports(check, ClassifyOne(check, db, detected[0]).0, detected[1..]);
    }
  }

  lemma {:induction false} NotifyAddsNone(check: Check, db: Db, detected: seq<Detected>)
    ensures NotifyAll(check, db, detected).changes == db.changes
    decreases detected
  {
    hide Fanout;
    if detected != [] {
      FanoutFrame(db, detected[0].change, Destinations(check, detected[0].row));
      NotifyAddsNone(check, NotifyOne(check, db, detected[0]), detected[1..]);
    }
  }

  /** A check's report lists exactly the changes it added, each once and in order. A crash takes the report with it. */
  lemma ReportedAreNew(check: Check, db: Db, items: seq<Item>)
    ensures |db.changes| <= |Processed(check, db, items).changes|
    ensures Reported(check, db, items) == Range(|db.changes|, |Processed(check, db, items).changes| - |db.changes|)
  {
    hide DetectAll, ClassifyAll, NotifyAll, InsertedIds, Range;
    var (found, detected) := DetectAll(check, db, items);
    var (tagged, classified) := ClassifyAll(check, found, detected);
    DetectReports(check, db, items);
    ClassifyReports(check, found, detected);
    NotifyAddsNone(check, tagged, classified);
  }
}
