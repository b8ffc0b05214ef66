/** The capture object: queue, ring and log position updated in place. */
module CdcShim {
  import opened Base
  import opened Text
  import opened Lsn
  import opened Cdc

  const DEFAULT_RING_CAPACITY: nat := 1000

  class Shim {
    const cfg: Config
    var walPosition: Wal
    var pendingEvents: seq<Event>
    var publishedRing: seq<Event>
    var eventsCaptured: nat
    var eventsPublished: nat
    var eventsFailed: nat
    var eventCounter: nat

    ghost function Abs(): State
      reads this
    {
      State(walPosition, pendingEvents, publishedRing, eventsCaptured, eventsPublished, eventsFailed, eventCounter)
    }

    /** The ring never outgrows its capacity, which is positive. */
    ghost predicate Valid()
      reads this
    {
      cfg.ringCapacity >= 1 && |publishedRing| <= cfg.ringCapacity
    }

    constructor (output: Output, tables: seq<string>, batchSize: nat, serializes: Event -> bool)
      ensures Valid() && Abs() == FRESH
      ensures cfg == Config(output, tables, batchSize, 1000, serializes)
    {
      cfg := Config(output, tables, batchSize, DEFAULT_RING_CAPACITY, serializes);
      walPosition, pendingEvents, publishedRing := ORIGIN, [], [];
      eventsCaptured, eventsPublished, eventsFailed, eventCounter := 0, 0, 0, 0;
    }

    method CreateEvent(table: string, operation: Operation, before: Option<string>, after: Option<string>)
      returns (event: Event)
      modifies this`eventCounter
      ensures eventCounter == old(eventCounter) + 1
      ensures event == Event(EventId(eventCounter), walPosition.lsn, table, operation, before, after, false)
      ensures forall c :: 0 <= c < eventCounter ==> EventId(c) != event.id
    {
      eventCounter := eventCounter + 1;
      event := Event(EventId(eventCounter), walPosition.lsn, table, operation, before, after, false);
      forall c | 0 <= c < eventCounter ensures EventId(c) != event.id {
        if EventId(c) == event.id { EventIdsDistinct(c, eventCounter); }
      }
    }

    method Capture(event: Event) returns (accepted: bool)
      modifies this`eventsCaptured, this`pendingEvents
      ensures Abs() == Step(cfg, old(Abs()), Op.Capture(event))
      ensures accepted <==> cfg.tables == [] || exists t :: t in cfg.tables && SameButCase(t, event.table)
    {
      CaptureIff(cfg, event.table);
      if !ShouldCapture(cfg, event.table) {
        return false;
      }
      eventsCaptured := eventsCaptured + 1;
      pendingEvents := pendingEvents + [event.(lsn := walPosition.lsn)];
      return true;
    }

    method PushToRing(event: Event)
      requires Valid()
      modifies this`publishedRing
      ensures Valid() && publishedRing == Last(cfg.ringCapacity, old(publishedRing) + [event])
    {
      if |publishedRing| >= cfg.ringCapacity {
        publishedRing := publishedRing[1..];
      }
      publishedRing := publishedRing + [event];
    }

    /** Take one batch off the queue and settle every event of it; `delivered` is the webhook's success count. */
    method PublishBatch(delivered: nat) returns (count: nat)
      requires Valid()
      modifies this
      ensures Valid() && Abs() == Step(cfg, old(Abs()), Publish(delivered))
      ensures count == (eventsPublished - old(eventsPublished)) + (eventsFailed - old(eventsFailed))
      ensures count == eventsPublished - old(eventsPublished)
        <==> CountsWhole(cfg, old(Batch(cfg, Abs())), delivered)
    {
      var k := Min(cfg.batchSize, |pendingEvents|);
      var batch := pendingEvents[..k];
      pendingEvents := pendingEvents[k..];
      count := |batch|;
      if count == 0 {
        LastWhole(cfg.ringCapacity, publishedRing);
        return;
      }
      match cfg.output {
        case Webhook => SettleWebhook(batch, delivered);
        case Logged => SettleLogged(batch);
      }
      PublishedWholeIff(cfg, batch, delivered);
    }

    method SettleWebhook(batch: seq<Event>, delivered: nat)
      requires Valid() && cfg.output == Webhook
      modifies this`eventsPublished, this`eventsFailed, this`publishedRing
      ensures Valid()
      ensures eventsPublished == old(eventsPublished) + PublishedOf(cfg, batch, delivered)
      ensures eventsFailed == old(eventsFailed) + |batch| - PublishedOf(cfg, batch, delivered)
      ensures publishedRing == Last(cfg.ringCapacity, old(publishedRing) + Ringed(cfg, batch, delivered))
    {
      LastWhole(cfg.ringCapacity, publishedRing);
      for i := 0 to |batch|
        invariant Valid()
        invariant eventsPublished == old(eventsPublished) + if delivered > 0 then i else 0
        invariant eventsFailed == old(eventsFailed) + if delivered > 0 then 0 else i
        invariant publishedRing == Last(cfg.ringCapacity, old(publishedRing) + if delivered > 0 then batch[..i] else [])
      {
        if delivered > 0 {
          eventsPublished := eventsPublished + 1;
          LastSnoc(cfg.ringCapacity, old(publishedRing), batch, i);
          PushToRing(batch[i]);
        } else {
          eventsFailed := eventsFailed + 1;
        }
      }
      assert batch[..|batch|] == batch;
    }

    method SettleLogged(batch: seq<Event>)
      requires Valid() && cfg.output == Logged
      modifies this`eventsPublished, this`eventsFailed, this`publishedRing
      ensures Valid()
      ensures eventsPublished == old(eventsPublished) + Serialized(cfg, batch)
      ensures eventsFailed == old(eventsFailed) + |batch| - Serialized(cfg, batch)
      ensures publishedRing == Last(cfg.ringCapacity, old(publishedRing) + batch)
    {
      LastWhole(cfg.ringCapacity, publishedRing);
      for i := 0 to |batch|
        invariant Valid()
        invariant eventsPublished == old(eventsPublished) + Serialized(cfg, batch[..i])
        invariant eventsFailed == old(eventsFailed) + (i - Serialized(cfg, batch[..i]))
        invariant publishedRing == Last(cfg.ringCapacity, old(publishedRing) + batch[..i])
      {
        assert batch[..i + 1][..i] == batch[..i];
        if cfg.serializes(batch[i]) {
          eventsPublished := eventsPublished + 1;
        } else {
          eventsFailed := eventsFailed + 1;
        }
        LastSnoc(cfg.ringCapacity, old(publishedRing), batch, i);
        PushToRing(batch[i]);
      }
      assert batch[..|batch|] == batch;
    }

    method FailAllPending() returns (count: nat)
      modifies this`eventsFailed, this`pendingEvents
      ensures Abs() == Step(cfg, old(Abs()), FailPending)
      ensures pendingEvents == [] && eventsFailed == old(eventsFailed) + count
      ensures count == |old(pendingEvents)|
    {
      count := |pendingEvents|;
      eventsFailed := eventsFailed + count;
      pendingEvents := [];
    }

    method SetWalPosition(lsn: string, segment: nat, offset: nat)
      modifies this`walPosition
      ensures Abs() == Step(cfg, old(Abs()), SetWal(lsn, segment, offset))
      ensures walPosition.lsn == lsn && walPosition.segment == segment && walPosition.offset == offset
    {
      walPosition := Wal(lsn, segment, offset);
    }

    method AdvanceWal(delta: nat)
      modifies this`walPosition
      ensures Abs() == Step(cfg, old(Abs()), Op.Advance(delta))
    {
      var segment, offset := walPosition.segment, walPosition.offset + delta;
      if offset >= WAL_SEGMENT_SIZE {
        segment := segment + 1;
        offset := 0;
      }
      walPosition := Wal(PrintLsn(segment, offset), segment, offset);
    }
  }

  lemma LastWhole(cap: nat, ring: seq<Event>)
    requires |ring| <= cap
    ensures Last(cap, ring) == ring && Last(cap, ring + []) == ring
  {
    assert ring + [] == ring;
  }

  lemma LastSnoc(cap: nat, ring: seq<Event>, batch: seq<Event>, i: nat)
    requires i < |batch|
    ensures Last(cap, Last(cap, ring + batch[..i]) + [batch[i]]) == Last(cap, ring + batch[..i + 1])
  {
    LastOfLast(cap, ring + batch[..i], [batch[i]]);
    assert ring + batch[..i] + [batch[i]] == ring + batch[..i + 1];
  }
}
