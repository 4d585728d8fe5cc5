/** Commands, events and what a handler returns, reduced to the parts the
    dispatcher, the repositories and the event-recording mixins look at. */
module Messages {
  import opened Wrappers

  /** Stands for the dynamic type of a message (`reflect.TypeOf(msg)`): two
      messages have the same tag exactly when they are of the same concrete type. */
  type TypeTag = string

  /** An event identifier; 0 stands for the nil identifier. */
  type EventId = nat

  const NilEventId: EventId := 0

  datatype Command = Command(typ: TypeTag, payload: int)

  /** `initialized` is the flag `Init` sets on a `messages.BaseEvent`; `id` is the
      identifier of a root `BaseEvent`, nil until `Init` runs. */
  datatype Event = Event(typ: TypeTag, id: EventId, initialized: bool, payload: int)

  /** The error half of a handler's `([]Event, error)` result. */
  type HandlerError = string

  /** What a command or event handler returns: events, and an error or nil. */
  datatype HandlerResult = HandlerResult(events: seq<Event>, err: Option<HandlerError>)

  /** The events kept when the events in `offered` are recorded one by one,
      each one nil (None) or an event that `keep` accepts or rejects. */
  function Kept(offered: seq<Option<Event>>, keep: Event -> bool): (r: seq<Event>)
    ensures forall i :: 0 <= i < |r| ==> keep(r[i]) && Some(r[i]) in offered
  {
    if offered == [] then []
    else
      var rest := Kept(offered[1..], keep);
      if offered[0].Some? && keep(offered[0].value) then [offered[0].value] + rest else rest
  }

  /** Recording one offered event: nil and rejected events are dropped, any other
      event goes to the end. This is what both event-recording mixins do. */
  function Record(events: seq<Event>, offered: Option<Event>, keep: Event -> bool): seq<Event>
  {
    if offered.Some? && keep(offered.value) then events + [offered.value] else events
  }

  /** Recording the offered events one after the other. */
  function RecordAll(events: seq<Event>, offered: seq<Option<Event>>, keep: Event -> bool): seq<Event>
    decreases |offered|
  {
    if offered == [] then events else RecordAll(Record(events, offered[0], keep), offered[1..], keep)
  }

  /** Recording a run of events keeps exactly the non-nil accepted ones, in the
      order they were offered, after the events already held. */
  lemma {:induction false} RecordAllKeepsAccepted(events: seq<Event>, offered: seq<Option<Event>>, keep: Event -> bool)
    ensures RecordAll(events, offered, keep) == events + Kept(offered, keep)
    decreases |offered|
  {
    if offered != [] {
      RecordAllKeepsAccepted(Record(events, offered[0], keep), offered[1..], keep);
    }
  }
}
