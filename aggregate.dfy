/** The `Aggregate` mixin of `aggregate/aggregate.go`: an ordered list of
    recorded domain events that drops nil and uninitialised events. */
module Aggregates {
  import opened Wrappers
  import opened Messages

  /** What `Aggregate.AddEvent` accepts: an event `Init` has run on. */
  predicate IsInitialized(e: Event)
  {
    e.initialized
  }

  class Aggregate {
    var events: seq<Event>

    constructor ()
      ensures events == []
    {
      events := [];
    }

    method AddEvent(event: Option<Event>)
      modifies this
      ensures event.None? ==> events == old(events)
      ensures event.Some? && !IsInitialized(event.value) ==> events == old(events)
      ensures event.Some? && IsInitialized(event.value) ==> events == old(events) + [event.value]
      ensures events == Record(old(events), event, IsInitialized)
    {
      if event.None? {
        return;
      }
      if !event.value.initialized {
        return;
      }
      events := events + [event.value];
    }

    method GetEvents() returns (recorded: seq<Event>)
      ensures recorded == events
    {
      recorded := events;
    }

    method ResetEvents()
      modifies this
      ensures events == []
    {
      events := [];
    }
  }

  /** Offering a run of events to `AddEvent` keeps exactly those that are not
      nil and are initialised, in the order offered. */
  lemma AddEventsKeepsInitialized(events: seq<Event>, offered: seq<Option<Event>>)
    ensures RecordAll(events, offered, IsInitialized) == events + Kept(offered, IsInitialized)
    ensures forall e :: e in Kept(offered, IsInitialized) ==> e.initialized
  {
    RecordAllKeepsAccepted(events, offered, IsInitialized);
  }
}
