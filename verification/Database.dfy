/**
  The tables a check writes to, for one monitor (src/db/targets.ts, src/db/changes.ts, src/db/deliveries.ts), together
  with the notification queue. `fuel` is how many writes come before the Worker crashes: at zero every later write is
  lost, so an operation run with any fuel is that operation cut short at any point.
*/
module Database {
  import opened Common

  type Url = string
  type Time = int
  type Tag = string
  type Destination = string

  datatype Kind = New | Updated

  /** `stableKey` for a new item, `stableKey:updatedAt` for an updated one. */
  datatype DedupeKey = DedupeKey(stableKey: string, updatedAt: Option<Time>)

  datatype Change = Change(kind: Kind, key: DedupeKey, url: Url, tags: Option<seq<Tag>>)

  datatype Delivery = Delivery(change: nat, destination: Destination)

  /** Rows are identified by their position. */
  datatype Db = Db(
    targets: map<Url, Option<Time>>,
    changes: seq<Change>,
    deliveries: seq<Delivery>,
    queue: seq<nat>,
    fuel: nat)

  const EMPTY := Db(map[], [], [], [], 0)

  // ----- the statements

  function FindChange(changes: seq<Change>, key: DedupeKey, from: nat): (found: Option<nat>)
    requires from <= |changes|
    ensures found.Some? ==> from <= found.value < |changes| && changes[found.value].key == key
    ensures found == None ==> forall i :: from <= i < |changes| ==> changes[i].key != key
    decreases |changes| - from
  {
    if from == |changes| then None
    else if changes[from].key == key then Some(from)
    else FindChange(changes, key, from + 1)
  }

  function FindDelivery(deliveries: seq<Delivery>, d: Delivery, from: nat): (found: Option<nat>)
    requires from <= |deliveries|
    ensures found.Some? ==> from <= found.value < |deliveries| && deliveries[found.value] == d
    ensures found == None ==> forall i :: from <= i < |deliveries| ==> deliveries[i] != d
    decreases |deliveries| - from
  {
    if from == |deliveries| then None
    else if deliveries[from] == d then Some(from)
    else FindDelivery(deliveries, d, from + 1)
  }

  /** `watermark` None leaves an existing row's watermark alone. */
  function AfterUpsert(db: Db, url: Url, watermark: Option<Option<Time>>): Db {
    if db.fuel == 0 || (url in db.targets && watermark == None) then db
    else
      var value := if watermark.Some? then watermark.value else None;
      db.(targets := db.targets[url := value], fuel := db.fuel - 1)
  }

  predicate IsBehind(watermark: Option<Time>, to: Time) {
    watermark == None || watermark.value < to
  }

  /** The conditional update: only ever forward. */
  function AfterAdvance(db: Db, url: Url, to: Time): Db {
    if db.fuel == 0 || url !in db.targets || !IsBehind(db.targets[url], to) then db
    else db.(targets := db.targets[url := Some(to)], fuel := db.fuel - 1)
  }

  function AfterInsert(db: Db, change: Change): (r: (Db, nat, bool)) {
    match FindChange(db.changes, change.key, 0)
    case Some(id) => (db, id, false)
    case None =>
      if db.fuel == 0 then (db, |db.changes|, false)
      else (db.(changes := db.changes + [change], fuel := db.fuel - 1), |db.changes|, true)
  }

  function TagsOf(db: Db, id: nat): Option<seq<Tag>> {
    if id < |db.changes| then db.changes[id].tags else None
  }

  function AfterTags(db: Db, id: nat, tags: seq<Tag>): Db {
    if db.fuel == 0 || id >= |db.changes| || db.changes[id].tags.Some? then db
    else db.(changes := db.changes[id := db.changes[id].(tags := Some(tags))], fuel := db.fuel - 1)
  }

  function AfterCreate(db: Db, d: Delivery): (r: (Db, nat, bool)) {
    match FindDelivery(db.deliveries, d, 0)
    case Some(id) => (db, id, false)
    case None =>
      if db.fuel == 0 then (db, |db.deliveries|, false)
      else (db.(deliveries := db.deliveries + [d], fuel := db.fuel - 1), |db.deliveries|, true)
  }

  function AfterSend(db: Db, delivery: nat): Db {
    if db.fuel == 0 then db else db.(queue := db.queue + [delivery], fuel := db.fuel - 1)
  }

  /** The tables as mutable state. */
  class Tables {
    var targets: map<Url, Option<Time>>
    var changes: seq<Change>
    var deliveries: seq<Delivery>
    var queue: seq<nat>
    var fuel: nat

    constructor (db: Db)
      ensures Value() == db
    {
      targets, changes, deliveries, queue, fuel := db.targets, db.changes, db.deliveries, db.queue, db.fuel;
    }

    function Value(): Db
      reads this
    {
      Db(targets, changes, deliveries, queue, fuel)
    }

    method UpsertTarget(url: Url, watermark: Option<Option<Time>>)
      modifies this
      ensures Value() == AfterUpsert(old(Value()), url, watermark)
    {
      if fuel == 0 { return; }
      if url !in targets {
        var value := if watermark.Some? then watermark.value else None;
        targets, fuel := targets[url := value], fuel - 1;
      } else if watermark.Some? {
        targets, fuel := targets[url := watermark.value], fuel - 1;
      }
    }

    method SetTargetLastKnownUpdatedAt(url: Url, to: Time)
      modifies this
      ensures Value() == AfterAdvance(old(Value()), url, to)
    {
      if fuel > 0 && url in targets && IsBehind(targets[url], to) {
        targets, fuel := targets[url := Some(to)], fuel - 1;
      }
    }

    method InsertChangeIfNew(change: Change) returns (id: nat, inserted: bool)
      modifies this
      ensures (Value(), id, inserted) == AfterInsert(old(Value()), change)
    {
      var existing := FindChange(changes, change.key, 0);
      if existing.Some? { return existing.value, false; }
      id, inserted := |changes|, fuel > 0;
      if fuel > 0 { changes, fuel := changes + [change], fuel - 1; }
    }

    method SetChangeTagsIfNull(id: nat, tags: seq<Tag>) returns (stored: Option<seq<Tag>>)
      modifies this
      ensures Value() == AfterTags(old(Value()), id, tags)
      ensures stored == TagsOf(Value(), id)
    {
      if fuel > 0 && id < |changes| && changes[id].tags == None {
        changes, fuel := changes[id := changes[id].(tags := Some(tags))], fuel - 1;
        return Some(tags);
      }
      return if id < |changes| then changes[id].tags else None;
    }

    method CreateDeliveryIfNew(change: nat, destination: Destination) returns (id: nat, inserted: bool)
      modifies this
      ensures (Value(), id, inserted) == AfterCreate(old(Value()), Delivery(change, destination))
    {
      var existing := FindDelivery(deliveries, Delivery(change, destination), 0);
      if existing.Some? { return existing.value, false; }
      id, inserted := |deliveries|, fuel > 0;
      if fuel > 0 { deliveries, fuel := deliveries + [Delivery(change, destination)], fuel - 1; }
    }

    method Send(delivery: nat)
      modifies this
      ensures Value() == AfterSend(old(Value()), delivery)
    {
      if fuel > 0 { queue, fuel := queue + [delivery], fuel - 1; }
    }
  }

  // ----- what every write keeps

  ghost predicate UniqueKeys(changes: seq<Change>) {
    forall i, j :: 0 <= i < j < |changes| ==> changes[i].key != changes[j].key
  }

  /** One change for each key, one delivery for each change and destination, at most one message for each delivery. */
  ghost predicate Inv(db: Db) {
    && UniqueKeys(db.changes)
    && NoDuplicates(db.deliveries)
    && NoDuplicates(db.queue)
    && (forall k :: 0 <= k < |db.deliveries| ==> db.deliveries[k].change < |db.changes|)
    && (forall k :: 0 <= k < |db.queue| ==> db.queue[k] < |db.deliveries|)
  }

  lemma EmptyInv(fuel: nat)
    ensures Inv(EMPTY.(fuel := fuel))
  {
  }

  lemma RefuelKeepsInv(db: Db, fuel: nat)
    requires Inv(db)
    ensures Inv(db.(fuel := fuel))
  {
  }

  lemma UpsertInv(db: Db, url: Url, watermark: Option<Option<Time>>)
    requires Inv(db)
    ensures Inv(AfterUpsert(db, url, watermark))
  {
  }

  lemma AdvanceInv(db: Db, url: Url, to: Time)
    requires Inv(db)
    ensures Inv(AfterAdvance(db, url, to))
  {
  }

  lemma InsertInv(db: Db, change: Change)
    requires Inv(db)
    ensures Inv(AfterInsert(db, change).0)
  {
  }

  lemma TagsInv(db: Db, id: nat, tags: seq<Tag>)
    requires Inv(db)
    ensures Inv(AfterTags(db, id, tags))
  {
  }

  /** A created delivery is sent at once, unless the crash comes between the two. */
  function AfterDelivery(db: Db, d: Delivery): Db {
    var (created, id, inserted) := AfterCreate(db, d);
    if inserted then AfterSend(created, id) else created
  }

  lemma DeliveryInv(db: Db, d: Delivery)
    requires Inv(db) && (db.fuel > 0 ==> d.change < |db.changes|)
    ensures Inv(AfterDelivery(db, d))
    ensures AfterDelivery(db, d).fuel > 0 ==> d in AfterDelivery(db, d).deliveries
  {
    var after := AfterDelivery(db, d);
    if after != db {
      assert after.deliveries == db.deliveries + [d];
      assert after.deliveries[|db.deliveries|] == d;
    }
  }

  // ----- what every write preserves of the state before it

  ghost predicate TagsKept(before: Option<seq<Tag>>, after: Option<seq<Tag>>) {
    before == None || before == after
  }

  predicate IsAtLeast(after: Option<Time>, before: Option<Time>) {
    before == None || (after.Some? && before.value <= after.value)
  }

  /**
    Nothing is deleted, a change keeps its kind and key and, once it has them, its tags, only deliveries created since
    are sent, and no watermark goes back.
  */
  ghost predicate Grows(a: Db, b: Db) {
    && b.fuel <= a.fuel
    && |a.changes| <= |b.changes|
    && (forall i :: 0 <= i < |a.changes| ==>
          && b.changes[i] == a.changes[i].(tags := b.changes[i].tags)
          && TagsKept(a.changes[i].tags, b.changes[i].tags))
    && a.deliveries <= b.deliveries && a.queue <= b.queue
    && (forall q :: |a.queue| <= q < |b.queue| ==> b.queue[q] >= |a.deliveries|)
    && (forall u :: u in a.targets ==> u in b.targets && IsAtLeast(b.targets[u], a.targets[u]))
  }

  lemma GrowsTrans(a: Db, b: Db, c: Db)
    requires Grows(a, b) && Grows(b, c)
    ensures Grows(a, c)
  {
    forall i | 0 <= i < |a.changes| ensures
      c.changes[i] == a.changes[i].(tags := c.changes[i].tags) && TagsKept(a.changes[i].tags, c.changes[i].tags)
    {
      assert b.changes[i] == a.changes[i].(tags := b.changes[i].tags);
      assert c.changes[i] == b.changes[i].(tags := c.changes[i].tags);
    }
  }

  lemma UpsertGrows(db: Db, url: Url, watermark: Option<Option<Time>>)
    requires url !in db.targets || watermark == None
    ensures Grows(db, AfterUpsert(db, url, watermark))
  {
  }

  lemma AdvanceGrows(db: Db, url: Url, to: Time)
    ensures Grows(db, AfterAdvance(db, url, to))
  {
  }

  lemma InsertGrows(db: Db, change: Change)
    ensures Grows(db, AfterInsert(db, change).0)
  {
  }

  lemma TagsGrow(db: Db, id: nat, tags: seq<Tag>)
    ensures Grows(db, AfterTags(db, id, tags))
  {
  }

  lemma DeliveryGrows(db: Db, d: Delivery)
    ensures Grows(db, AfterDelivery(db, d))
  {
  }
}
