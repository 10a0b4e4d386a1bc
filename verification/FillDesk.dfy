// The object the program books its fills with: one frontier of seen ids, one running sum
// per order, and the store of entry rows, updated in place by every channel.

module FillDesks {
  import opened EntryRows
  import EntryStores
  import opened FillIntake

  class FillDesk {
    const store: EntryStores.EntryStore
    var seen: set<string>
    var cum: map<string, int>
    ghost var log: seq<string>

    ghost predicate Valid()
      reads this, store
    {
      store.Valid()
    }

    ghost function State(): Intake
      reads this, store
    {
      Intake(store.ids, store.rows, seen, cum, log)
    }

    constructor (store: EntryStores.EntryStore)
      ensures this.store == store && seen == {} && cum == map[] && log == []
    {
      this.store := store;
      seen, cum, log := {}, map[], [];
    }

    method BookOwn(e: Exec, credit: int)
      requires Valid() && e.id !in seen && e.qty > 0
      modifies this, store`rows
      ensures Valid() && State() == Book(old(State()), e, credit)
    {
      hide NetFifo, Fifo, Owned, FillRow, Listed;
      DeliverListed(State(), e, Live, credit);
      CursorListed(State(), e);
      seen := seen + {e.id};
      log := log + [e.id];
      var cumulative := (if e.order in cum then cum[e.order] else 0) + e.qty;
      cum := cum[e.order := cumulative];
      if e.order in store.rows {
        store.rows := store.rows[e.order := FillRow(store.rows[e.order], cumulative, e)];
      }
      if !e.entry {
        store.ReduceEntryOwnership(e.side, e.qty - credit);
      }
    }

    /** One execution row of a channel: skipped, marked as owned already, or booked. */
    method Receive(e: Exec, channel: Channel, credit: int)
      requires Valid()
      modifies this, store`rows
      ensures Valid() && State() == DeliverOne(old(State()), e, channel, credit)
    {
      hide Book;
      if e.id in seen {
        return;
      }
      if !channel.Live? && e.order in store.rows && store.rows[e.order].filled >= store.rows[e.order].qty {
        seen := seen + {e.id};
        return;
      }
      if e.qty <= 0 {
        seen := seen + {e.id};
        return;
      }
      BookOwn(e, credit);
    }

    /** A push, a drained window or an order's executions, row by row. */
    method ReceiveAll(batch: seq<(Exec, int)>, channel: Channel)
      requires Valid()
      modifies this, store`rows
      ensures Valid() && State() == DeliverAll(old(State()), batch, channel)
    {
      hide DeliverOne;
      for i := 0 to |batch|
        invariant Valid()
        invariant DeliverAll(State(), batch[i..], channel) == DeliverAll(old(State()), batch, channel)
      {
        assert batch[i..][1..] == batch[i + 1..];
        Receive(batch[i].0, channel, batch[i].1);
      }
    }
  }
}
