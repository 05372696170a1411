/**
  Which deliveries are sent. A delivery is created by one write and sent by the next, and a later check leaves alone
  what it finds created. So a delivery is sent exactly if the check that created it had a write left after that.
*/
module FeedMessages {
  import opened Common
  import opened Database
  import opened Feed
  import opened FeedFrames
  import opened FeedRecovery
  import opened FeedAnnouncements
  import opened FeedNewItems

  // ----- a check with a write less

  ghost predicate SentFrom(db: Db, from: nat) {
    forall k :: from <= k < |db.deliveries| ==> k in db.queue
  }

  /** The check with a write more is still one write ahead, and so far it has sent what it created. */
  ghost predicate IsAhead(a: Db, b: Db, from: nat) {
    b == a.(fuel := a.fuel + 1) && SentFrom(b, from)
  }

  /** Both have crashed: `b` created the same deliveries and sent them, or a last one more, which it did not send. */
  ghost predicate HaveCrashed(a: Db, b: Db, from: nat) {
    && a.fuel == 0 && b.fuel == 0 && |a.deliveries| <= |b.deliveries| <= |a.deliveries| + 1
    && (forall k :: from <= k < |b.deliveries| ==> (k in b.queue <==> k < |a.deliveries|))
  }

  ghost predicate InLockstep(a: Db, b: Db, from: nat) {
    IsAhead(a, b, from) || HaveCrashed(a, b, from)
  }

  lemma DeliveryLockstep(a: Db, b: Db, d: Delivery, from: nat)
    requires Inv(b) && InLockstep(a, b, from) && from <= |b.deliveries|
    ensures InLockstep(AfterDelivery(a, d), AfterDelivery(b, d), from)
    ensures IsAhead(AfterDelivery(a, d), AfterDelivery(b, d), from) ==> IsAhead(a, b, from)
  {
    if IsAhead(a, b, from) && d !in b.deliveries {
      var after := AfterDelivery(b, d);
      assert FindDelivery(b.deliveries, d, 0) == None;
      assert |b.deliveries| !in b.queue;
      if b.fuel >= 2 {
        assert after.queue[|b.queue|] == |b.deliveries|;
        forall k | from <= k < |after.deliveries| ensures k in after.queue {
          assert k < |b.deliveries| ==> k in b.queue;
        }
      }
    }
  }

  lemma {:induction false} FanoutLockstep(a: Db, b: Db, change: nat, destinations: seq<Destination>, from: nat)
    requires Inv(b) && InLockstep(a, b, from) && from <= |b.deliveries| && (b.fuel > 0 ==> change < |b.changes|)
    ensures InLockstep(Fanout(a, change, destinations), Fanout(b, change, destinations), from)
    ensures IsAhead(Fanout(a, change, destinations), Fanout(b, change, destinations), from) ==> IsAhead(a, b, from)
    decreases destinations
  {
    hide Inv, AfterDelivery, IsAhead, HaveCrashed;
    if destinations != [] {
      var d := Delivery(change, destinations[0]);
      DeliveryLockstep(a, b, d, from);
      DeliveryInv(b, d);
      DeliveryGrows(b, d);
      FanoutLockstep(AfterDelivery(a, d), AfterDelivery(b, d), change, destinations[1..], from);
    }
  }

  lemma AdvanceLockstep(a: Db, b: Db, url: Url, to: Time, from: nat)
    requires InLockstep(a, b, from)
    ensures InLockstep(AfterAdvance(a, url, to), AfterAdvance(b, url, to), from)
    ensures IsAhead(AfterAdvance(a, url, to), AfterAdvance(b, url, to), from) ==> IsAhead(a, b, from)
  {
  }

  lemma NotifyOneLockstep(check: Check, a: Db, b: Db, d: Detected, from: nat)
    requires Inv(b) && InLockstep(a, b, from) && from <= |b.deliveries| && DetectedOk(b, d)
    ensures InLockstep(NotifyOne(check, a, d), NotifyOne(check, b, d), from)
    ensures IsAhead(NotifyOne(check, a, d), NotifyOne(check, b, d), from) ==> IsAhead(a, b, from)
  {
    hide Inv, Fanout, Destinations, AfterAdvance, IsAhead, HaveCrashed;
    var destinations := Destinations(check, d.row);
    FanoutLockstep(a, b, d.change, destinations, from);
    if d.advanceTo.Some? {
      AdvanceLockstep(Fanout(a, d.change, destinations), Fanout(b, d.change, destinations), d.url, d.advanceTo.value,
        from);
    }
  }

  lemma {:induction false} NotifyLockstep(check: Check, a: Db, b: Db, detected: seq<Detected>, from: nat)
    requires Inv(b) && InLockstep(a, b, from) && from <= |b.deliveries| && AllOk(b, detected)
    ensures InLockstep(NotifyAll(check, a, detected), NotifyAll(check, b, detected), from)
    decreases detected
  {
    hide Inv, NotifyOne, IsAhead, HaveCrashed, DetectedOk;
    if detected != [] {
      var first := NotifyOne(check, b, detected[0]);
      assert DetectedOk(b, detected[0]);
      NotifyOneLockstep(check, a, b, detected[0], from);
      NotifyOneKeeps(check, b, detected[0]);
      OkGrows(b, first, detected[1..]);
      NotifyLockstep(check, NotifyOne(check, a, detected[0]), first, detected[1..], from);
    }
  }

  ghost predicate NoMailYet(a: Db, b: Db, start: Db) {
    && a.fuel == 0 && b.fuel == 0
    && a.deliveries == start.deliveries && b.deliveries == start.deliveries
    && a.queue == start.queue && b.queue == start.queue
  }

  lemma DetectOneLockstep(check: Check, a: Db, item: Item)
    ensures var (a1, x) := DetectOne(check, a, item); var (b1, y) := DetectOne(check, a.(fuel := a.fuel + 1), item);
      || (b1 == a1.(fuel := a1.fuel + 1) && x == y && a1.deliveries == a.deliveries && a1.queue == a.queue)
      || NoMailYet(a1, b1, a)
  {
  }

  lemma {:induction false} DetectLockstep(check: Check, a: Db, items: seq<Item>)
    ensures var (a1, x) := DetectAll(check, a, items); var (b1, y) := DetectAll(check, a.(fuel := a.fuel + 1), items);
      || (b1 == a1.(fuel := a1.fuel + 1) && x == y && a1.deliveries == a.deliveries && a1.queue == a.queue)
      || NoMailYet(a1, b1, a)
    decreases items
  {
    hide DetectOne;
    if items != [] {
      DetectOneLockstep(check, a, items[0]);
      var a1 := DetectOne(check, a, items[0]).0;
      var b1 := DetectOne(check, a.(fuel := a.fuel + 1), items[0]).0;
      if NoMailYet(a1, b1, a) {
        CrashedDetect(check, a1, items[1..]);
        CrashedDetect(check, b1, items[1..]);
      } else {
        DetectLockstep(check, a1, items[1..]);
      }
    }
  }

  lemma {:induction false} ClassifyLockstep(check: Check, a: Db, detected: seq<Detected>)
    ensures var (a1, x) := ClassifyAll(check, a, detected);
      var (b1, y) := ClassifyAll(check, a.(fuel := a.fuel + 1), detected);
      || (b1 == a1.(fuel := a1.fuel + 1) && x == y && a1.deliveries == a.deliveries && a1.queue == a.queue)
      || NoMailYet(a1, b1, a)
    decreases detected
  {
    if detected != [] {
      var a1 := ClassifyOne(check, a, detected[0]).0;
      var b1 := ClassifyOne(check, a.(fuel := a.fuel + 1), detected[0]).0;
      hide ClassifyOne;
      ClassifyOneLockstep(check, a, detected[0]);
      if NoMailYet(a1, b1, a) {
        CrashedClassify(check, a1, detected[1..]);
        CrashedClassify(check, b1, detected[1..]);
      } else {
        ClassifyLockstep(check, a1, detected[1..]);
      }
    }
  }

  lemma ClassifyOneLockstep(check: Check, a: Db, d: Detected)
    ensures var (a1, x) := ClassifyOne(check, a, d); var (b1, y) := ClassifyOne(check, a.(fuel := a.fuel + 1), d);
      || (b1 == a1.(fuel := a1.fuel + 1) && x == y && a1.deliveries == a.deliveries && a1.queue == a.queue)
      || NoMailYet(a1, b1, a)
  {
  }

  lemma CheckLockstep(check: Check, a: Db, items: seq<Item>)
    requires Inv(a)
    ensures InLockstep(Processed(check, a, items), Processed(check, a.(fuel := a.fuel + 1), items), |a.deliveries|)
  {
    hide Inv, DetectAll, ClassifyAll, NotifyAll, AllOk;
    var b := a.(fuel := a.fuel + 1);
    var (fa, da) := DetectAll(check, a, items);
    var (fb, db) := DetectAll(check, b, items);
    var (ta, ca) := ClassifyAll(check, fa, da);
    var (tb, cb) := ClassifyAll(check, fb, db);
    DetectLockstep(check, a, items);
    if NoMailYet(fa, fb, a) {
      CrashedClassify(check, fa, da);
      CrashedClassify(check, fb, db);
    } else {
      ClassifyLockstep(check, fa, da);
    }
    if NoMailYet(ta, tb, a) {
      CrashedNotify(check, ta, ca);
      CrashedNotify(check, tb, cb);
    } else {
      RefuelKeepsInv(a, b.fuel);
      DetectAllKeeps(check, b, items);
      ClassifyAllKeeps(check, fb, db);
      NotifyLockstep(check, ta, tb, ca, |a.deliveries|);
    }
  }

  // ----- one check

  /**
    Of the deliveries a check creates, those are sent that it would have created with one write less: for which the
    creation was not the last write before the crash.
  */
  lemma SentExactly(check: Check, db: Db, items: seq<Item>, k: nat)
    requires Inv(db) && |db.deliveries| <= k < |Processed(check, db, items).deliveries|
    ensures db.fuel > 0
    ensures k in Processed(check, db, items).queue
       <==> k < |Processed(check, db.(fuel := db.fuel - 1), items).deliveries|
  {
    hide Inv, Processed;
    if db.fuel == 0 {
      CrashedCheck(check, db, items);
    } else {
      RefuelKeepsInv(db, db.fuel - 1);
      CheckLockstep(check, db.(fuel := db.fuel - 1), items);
      assert db.(fuel := db.fuel - 1).(fuel := db.fuel) == db;
    }
  }

  lemma CrashedCheck(check: Check, db: Db, items: seq<Item>)
    requires db.fuel == 0
    ensures Processed(check, db, items) == db
  {
    hide DetectAll, ClassifyAll, NotifyAll;
    var (found, detected) := DetectAll(check, db, items);
    CrashedDetect(check, db, items);
    CrashedClassify(check, db, detected);
    CrashedNotify(check, db, ClassifyAll(check, db, detected).1);
  }

  /** A check leaves at most one delivery without a message, and none unless it crashes. */
  lemma AtMostOneUnsent(check: Check, db: Db, items: seq<Item>)
    requires Inv(db)
    ensures var after := Processed(check, db, items);
      && (forall k :: |db.deliveries| <= k < |after.deliveries| - 1 ==> k in after.queue)
      && (after.fuel > 0 ==> SentFrom(after, |db.deliveries|))
  {
    hide Inv, Processed;
    if db.fuel == 0 {
      CrashedCheck(check, db, items);
    } else {
      RefuelKeepsInv(db, db.fuel - 1);
      CheckLockstep(check, db.(fuel := db.fuel - 1), items);
      assert db.(fuel := db.fuel - 1).(fuel := db.fuel) == db;
    }
  }

  // ----- any runs, any crashes

  /** The run had another write for delivery `k` after creating it. */
  ghost predicate HadAWriteLeft(runs: seq<Run>, r: nat, k: nat)
    requires r < |runs|
  {
    && runs[r].fuel > 0
    && k < |Processed(runs[r].check, StateAfter(runs, r).(fuel := runs[r].fuel - 1), runs[r].items).deliveries|
  }

  lemma QueuedStays(a: Db, b: Db, k: nat)
    requires Extends(a, b) && k < |a.deliveries|
    ensures k < |b.deliveries| && b.deliveries[k] == a.deliveries[k] && (k in a.queue <==> k in b.queue)
  {
    if k in b.queue {
      var q :| 0 <= q < |b.queue| && b.queue[q] == k;
      assert q < |a.queue|;
    }
  }

  /**
    After any runs a delivery is sent exactly if the run that created it had a write left for that: no later run sends
    it.
  */
  lemma {:induction false} DeliveryIsSentExactly(runs: seq<Run>, n: nat, k: nat) returns (r: nat)
    requires n <= |runs| && k < |StateAfter(runs, n).deliveries|
    ensures r < n && |StateAfter(runs, r).deliveries| <= k < |StateAfter(runs, r + 1).deliveries|
    ensures k in StateAfter(runs, n).queue <==> HadAWriteLeft(runs, r, k)
  {
    hide Inv, Processed, Grows;
    if n > 0 {
      var before := StateAfter(runs, n - 1);
      RunsKeepInv(runs, n - 1);
      RunsExtend(runs, n - 1, n);
      if k < |before.deliveries| {
        r := DeliveryIsSentExactly(runs, n - 1, k);
        QueuedStays(before, StateAfter(runs, n), k);
      } else {
        r := n - 1;
        var start := before.(fuel := runs[r].fuel);
        RefuelKeepsInv(before, runs[r].fuel);
        SentExactly(runs[r].check, start, runs[r].items, k);
        assert start.(fuel := start.fuel - 1) == before.(fuel := runs[r].fuel - 1);
      }
    }
  }

  function Unsent(db: Db): set<nat> {
    set k: nat | k < |db.deliveries| && k !in db.queue
  }

  function CrashedRuns(runs: seq<Run>, n: nat): nat
    requires n <= |runs|
  {
    if n == 0 then 0 else CrashedRuns(runs, n - 1) + if StateAfter(runs, n).fuel == 0 then 1 else 0
  }

  /** So each crash costs one message at most. */
  lemma {:induction false} UnsentAreFew(runs: seq<Run>, n: nat)
    requires n <= |runs|
    ensures |Unsent(StateAfter(runs, n))| <= CrashedRuns(runs, n)
  {
    hide Inv, Processed, Grows, Unsent;
    if n == 0 {
      NothingUnsent();
    } else {
      UnsentAreFew(runs, n - 1);
      var before := StateAfter(runs, n - 1);
      var start := before.(fuel := runs[n - 1].fuel);
      RunsKeepInv(runs, n - 1);
      RefuelKeepsInv(before, runs[n - 1].fuel);
      AtMostOneUnsent(runs[n - 1].check, start, runs[n - 1].items);
      RunsExtend(runs, n - 1, n);
      OneMoreUnsent(before, StateAfter(runs, n));
    }
  }

  lemma NothingUnsent()
    ensures Unsent(EMPTY) == {}
  {
  }

  lemma OneMoreUnsent(a: Db, b: Db)
    requires Extends(a, b)
    requires forall k :: |a.deliveries| <= k < |b.deliveries| - 1 ==> k in b.queue
    requires b.fuel > 0 ==> SentFrom(b, |a.deliveries|)
    ensures |Unsent(b)| <= |Unsent(a)| + if b.fuel == 0 then 1 else 0
  {
    var last: set<nat> := if b.fuel == 0 && |b.deliveries| > 0 then {|b.deliveries| - 1} else {};
    forall k | k in Unsent(b) ensures k in Unsent(a) + last {
      if k < |a.deliveries| {
        QueuedStays(a, b, k);
      }
    }
    SmallerSet(Unsent(b), Unsent(a) + last);
  }

  lemma {:induction false} SmallerSet<T>(a: set<T>, b: set<T>)
    requires a <= b
    ensures |a| <= |b|
    decreases a
  {
    if x :| x in a {
      SmallerSet(a - {x}, b - {x});
    }
  }

  // ----- where a message stays away

  /**
    One delivery and two fanouts, the second with writes enough: it is sent unless the crash left the first one write.
  */
  lemma SecondFanoutSends(db: Db, d: Delivery, fuel: nat)
    requires Inv(db) && d !in db.deliveries && d.change < |db.changes| && fuel >= 2
    ensures var first := Fanout(db, d.change, [d.destination]);
      var second := Fanout(first.(fuel := fuel), d.change, [d.destination]);
      second.deliveries == db.deliveries + [d] && (|db.deliveries| in second.queue <==> db.fuel != 1)
  {
    OneFanout(db, d);
    var first := Fanout(db, d.change, [d.destination]);
    hide Fanout;
    assert |db.deliveries| !in db.queue;
    OneFanout(first.(fuel := fuel), d);
  }

  lemma OneFanout(db: Db, d: Delivery)
    ensures var after := Fanout(db, d.change, [d.destination]);
      && (d in db.deliveries ==> after == db)
      && (d !in db.deliveries && db.fuel > 0 ==> after.deliveries == db.deliveries + [d] && d in after.deliveries)
      && (d !in db.deliveries && db.fuel == 0 ==> after == db)
      && (d !in db.deliveries && db.fuel == 1 ==> after.queue == db.queue)
      && (d !in db.deliveries && db.fuel > 1 ==> after.queue == db.queue + [|db.deliveries|])
  {
    var destinations := [d.destination];
    assert destinations[1..] == [] && Delivery(d.change, destinations[0]) == d;
    var after := Fanout(db, d.change, destinations);
    assert after == Fanout(AfterDelivery(db, d), d.change, []);
    if d !in db.deliveries && db.fuel > 0 {
      assert FindDelivery(db.deliveries, d, 0) == None;
      assert after.deliveries[|db.deliveries|] == d;
    }
  }

  /**
    A check of an empty database that crashes after three writes: target, change, delivery. Its message is never sent.
  */
  lemma DeliveryCanStayUnsent(check: Check, fuel: nat)
    requires !check.isBaseline && check.isAllowed("u") && check.classifier == None && check.matching(New, []) == ["d"]
    ensures var items := [Item(Some("u"), "k", Some(5))];
      var crashed := Processed(check, EMPTY.(fuel := 3), items);
      var again := Processed(check, crashed.(fuel := fuel), items);
      again.deliveries == [Delivery(0, "d")] && again.queue == [] && again.fuel == fuel
  {
    hide Fanout;
    var items := [Item(Some("u"), "k", Some(5))];
    assert items[1..] == [];
    var start := EMPTY.(fuel := 3);
    var row := Change(New, DedupeKey("k", None), "u", None);
    var entry := Detected("u", 0, row, true, None, items[0]);
    var known := AfterUpsert(start, "u", Some(Some(5)));
    assert FindChange(known.changes, row.key, 0) == None && known.changes + [row] == [row];
    var found := known.(changes := [row], fuel := 1);
    assert AfterInsert(known, row) == (found, 0, true);
    assert DetectOne(check, start, items[0]) == (found, [entry]);
    assert DetectAll(check, found, []) == (found, []);
    assert [entry] + [] == [entry];
    assert [entry][1..] == [];
    assert ClassifyAll(check, found, [entry]) == (found, [entry]);
    assert NotifyAll(check, found, [entry]) == NotifyOne(check, found, entry);
    OneFanout(found, Delivery(0, "d"));
    var crashed := Processed(check, start, items);
    assert crashed == NotifyOne(check, found, entry);
    FanoutFrame(found, 0, ["d"]);
    var again := crashed.(fuel := fuel);
    NothingNew(check, again, items);
    NothingDetected(check, again, items);
  }
}
