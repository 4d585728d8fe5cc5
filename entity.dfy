/** The root `Entity` mixin of `entity.go`: an ordered list of recorded domain
    events that drops nil events and events whose identifier is nil. */
module EventSourced {
  import opened Wrappers
  import opened Messages

  /** What `Entity.AddEvent` accepts: an event whose identifier is not nil. */
  predicate HasId(e: Event)
  {
    e.id != NilEventId
  }

  class Entity {
    var events: seq<Event>

    constructor ()
      ensures events == []
    {
      events := [];
    }

    method AddEvent(event: Option<Event>)
      modifies this
      ensures event.None? ==> events == old(events)
      ensures event.Some? && !HasId(event.value) ==> events == old(events)
      ensures event.Some? && HasId(event.value) ==> events == old(events) + [event.value]
      ensures events == Record(old(events), event, HasId)
    {
      if event.None? {
        return;
      }
      if event.value.id == NilEventId {
        return;
      }
      events := events + [event.value];
    }

    method GetEvents() returns (recorded: seq<Event>)
      ensures recorded == events
    {
      recorded := events;
    }

    method ResetEvents()
      modifies this
      ensures events == []
    {
      events := [];
    }
  }

  /** Offering a run of events to `AddEvent` keeps exactly those that are not
      nil and carry an identifier, in the order offered. */
  lemma AddEventsKeepsIdentified(events: seq<Event>, offered: seq<Option<Event>>)
    ensures RecordAll(events, offered, HasId) == events + Kept(offered, HasId)
    ensures forall e :: e in Kept(offered, HasId) ==> e.id != NilEventId
  {
    RecordAllKeepsAccepted(events, offered, HasId);
  }
}
