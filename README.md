# dorky core in Dafny

A verified model of the sequential core of `dorky`, an in-process
command/event pipeline written in Go:

- the **message bus** (`messagebus.go`). It keeps one handler per command
  type and an ordered list of handlers per event type. A `started` flag
  closes registration. A command goes to its handler. The events it
  returns are then drained from a FIFO queue breadth-first, and every
  handler of an event's type runs on it. Whatever an event handler returns
  goes to the tail of the queue, even when it also returns an error; a
  failing command handler's events are dropped;
- the **queue** (`queue.go`) the bus drains;
- the **in-memory repository** (`inmem/repository.go`). It has a durable
  collection of entities and a staging area, the transaction. Lookups
  stage what they return: the staged instance itself, or a fresh clone of
  a durable one. `Save` checks every staged entity for a constraint
  conflict before it persists anything. It then persists them in order
  and collects and resets their events;
- the **unit of work** (`inmem/unit_of_work.go`). It resets its
  repositories around the caller's function. It then saves the
  repositories in order and stops at the first failure;
- the **bidirectional mapper** (`mapper/mapper.go`), built from a flat
  key/value list;
- the **transition-table state machine** (`state/state.go`);
- the two **event-recording mixins** (`entity.go`, `aggregate/aggregate.go`).

State the Go code updates in place becomes a Dafny class with `modifies`
frames: the bus, the queue, a repository and its entities, the unit of
work, a state machine and the mixins. The pure parts are functions. Every
method is tied to a specification function of its inputs and old state.
The lemmas then prove what the code promises about those functions:
FIFO order, breadth-first dispatch, registration order, what `FindAll`
picks, what `Save` persists and returns, mapper round trips, and walks
along the transition table.

Files, one module each: `wrappers.dfy` (Option, Result), `messages.dfy`
(commands, events, handler results, the event filter the mixins share),
`queue.dfy`, `messagebus.dfy`, `entity.dfy`, `aggregate.dfy`,
`repository.dfy`, `unit_of_work.dfy`, `mapper.dfy`, `state.dfy`.

Modelling choices:

- A message's dynamic type (`reflect.TypeOf`) is an abstract `TypeTag`.
- Handlers are opaque function values returning events and an optional
  error. The context argument is left out.
- A ghost log (`trace`) on the bus records, in order, every run of a
  command handler (`CommandHandled`), every dequeued event
  (`EventDispatched`) and every event handler run on it (`EventHandled`).
  It stands for the handlers' side effects.
- A repository's entities are objects (`InmemRepository.Entity`). A
  value `data` is what the caller's predicates inspect, and `events` are
  the recorded events. This keeps the aliasing of `FindOne`/`FindAll`
  results with staged entities visible.
- `New`'s `...any` list is a sequence of `Dyn` values. Each one carries
  the outcome of both type assertions `New` applies to it.
- `Run` takes the caller's function `f`, which changes repositories. In
  the model it is split at the call of `f`:
  - `ResetRepos` is the reset before `f`;
  - `Commit(fErr)` is everything after `f` returns `fErr`: the early
    return on an error, the save loop `SaveInOrder`, and the deferred
    reset.

## Model

| member | source | states |
|---|---|---|
| Queues.Queue.constructor | queue.go:8-12 | a new queue is empty |
| Queues.Queue.Enqueue | queue.go:14-16 | the items become the old items followed by the new one |
| Queues.Queue.EnqueueMultiple | queue.go:18-20 | the items become the old items followed by the given ones, in order |
| Queues.Queue.Dequeue | queue.go:22-33 | on an empty queue: no item, queue unchanged; otherwise the head is returned and exactly the old tail remains |
| Queues.FifoOrder | queue.go:14-33 | over any run of calls, what comes out followed by what remains equals what was inside followed by everything enqueued: first in, first out |
| Bus.MessageBus.constructor | messagebus.go:26-40 | a new bus is not started, has no handlers and an empty queue |
| Bus.MessageBus.Start | messagebus.go:83-87 | the bus is started afterwards; the result says whether it already was (only the first call starts it) |
| Bus.MessageBus.RegisterCommandHandler | messagebus.go:150-167 | after start: an error and no change; a type that already has a handler: an error and the old handler kept; otherwise the handler is added |
| Bus.MessageBus.RegisterEventHandler | messagebus.go:171-187 | after start: an error and no change; otherwise the handler is appended to its type's list, duplicates accepted |
| Bus.RegisterAllAfterStart | messagebus.go:150-187 | once started, no run of registration calls changes the registry |
| Bus.EventHandlersInRegistrationOrder | messagebus.go:179-182 | before start, a run of registrations leaves each event type with its old handlers followed by every handler registered for it, in registration order |
| Bus.FirstCommandHandlerKept | messagebus.go:158-162 | before start, a command type ends up with a handler exactly when it had one or the run registers one; the handler kept is the one it had, otherwise the first registered |
| Bus.MessageBus.DispatchCommand | messagebus.go:192-216 | no handler: an error and queue and log untouched; handler error: that error, nothing enqueued; success: the handler's events appended to the queue in order |
| Bus.MessageBus.RunEventHandlers | messagebus.go:233-244 | every handler of the event's own type runs in registration order, and each one's events are enqueued even when it also returns an error; a type with no handlers runs nothing |
| Bus.MessageBus.DispatchEvents | messagebus.go:221-247 | the queue and the log after the loop are those of the specification `Drain`; the result says whether the queue is empty |
| Bus.MessageBus.ProcessCommand | messagebus.go:103-110 | one turn of the bus loop: the command's outcome, then the queue drained from the old items followed by the command's events |
| Bus.DrainOneLevel | messagebus.go:222-246 | dequeuing the events at the head of the queue appends their handlers' events behind what already waits, and logs them in order |
| Bus.DrainCompose | messagebus.go:222-246 | dequeuing a + b events is dequeuing a events and then b more |
| Bus.BreadthFirst | messagebus.go:221-247 | after all events of levels 0..n-1 of the cascade are dequeued, the log holds those levels one whole level after another and the queue holds exactly level n |
| Bus.CascadeDrains | messagebus.go:222-227 | a cascade that ends drains completely given enough fuel, and its log lists the levels in order |
| Bus.LogOfDelivers | messagebus.go:231-244 | dispatching a run of events dequeues every one of them and runs on each exactly the handlers of its own type |
| Bus.FirstLevelDelivered | messagebus.go:222-246 | the log of draining starts with the dispatch of every event initially queued, in queue order |
| Messages.RecordAllKeepsAccepted | entity.go:12-22 | recording a run of offered events keeps exactly the non-nil accepted ones, in order, after those already held |
| EventSourced.Entity.constructor | entity.go:6-8 | a new entity has no events |
| EventSourced.Entity.AddEvent | entity.go:12-22 | nil: no change; an event with a nil identifier: no change; otherwise the event is appended |
| EventSourced.Entity.GetEvents | entity.go:26-28 | returns the recorded events, changing nothing |
| EventSourced.Entity.ResetEvents | entity.go:31-33 | the recorded events become empty |
| EventSourced.AddEventsKeepsIdentified | entity.go:12-22 | a run of `AddEvent` calls keeps exactly the non-nil events with an identifier, in the order offered |
| Aggregates.Aggregate.constructor | aggregate/aggregate.go:10-12 | a new aggregate has no events |
| Aggregates.Aggregate.AddEvent | aggregate/aggregate.go:16-26 | nil: no change; an uninitialised event: no change; otherwise the event is appended |
| Aggregates.Aggregate.GetEvents | aggregate/aggregate.go:30-32 | returns the recorded events, changing nothing |
| Aggregates.Aggregate.ResetEvents | aggregate/aggregate.go:35-37 | the recorded events become empty |
| Aggregates.AddEventsKeepsInitialized | aggregate/aggregate.go:16-26 | a run of `AddEvent` calls keeps exactly the non-nil initialised events, in the order offered |
| InmemRepository.Entity.Clone | inmem/repository.go:18 | the clone is a fresh object with the same value and events |
| InmemRepository.Entity.GetEvents | inmem/repository.go:16 | returns the entity's events |
| InmemRepository.Entity.ResetEvents | inmem/repository.go:17 | the entity's events become empty |
| InmemRepository.FirstMatch | inmem/repository.go:92-96 | the position of the first element satisfying the predicate, or the length when none does |
| InmemRepository.Matching | inmem/repository.go:130-134 | the increasing positions of exactly the elements satisfying the predicate |
| InmemRepository.PicksFromSound | inmem/repository.go:136-152 | `FindAll` clones only matching durable values whose identity was not collected before, and never two of one identity |
| InmemRepository.PicksFromComplete | inmem/repository.go:136-152 | `FindAll` skips a matching durable value only when something collected before it has the same identity |
| InmemRepository.PersistAllKeeps | inmem/repository.go:173-184 | a durable entity no staged entity is identity-equal to keeps its slot when the staged ones are persisted |
| InmemRepository.PersistAllContains | inmem/repository.go:173-190 | a staged entity not identity-equal to one staged after it is in the durable collection after persisting |
| InmemRepository.LaterStagedOverwrites | inmem/repository.go:173-192 | two staged entities of one identity persisted in order leave only the later one in the durable collection; the earlier one is dropped |
| InmemRepository.HarvestCollects | inmem/repository.go:186-192 | the events `Save` returns are exactly the events of the staged entities |
| InmemRepository.Repository.constructor | inmem/repository.go:53-58 | a new repository has empty collections and the given predicates |
| InmemRepository.Repository.Add | inmem/repository.go:66-78 | fails with AlreadyExists, changing nothing, exactly when the entity is constraint-equal to a durable or staged one; otherwise it is appended to the transaction only |
| InmemRepository.Repository.FindOne | inmem/repository.go:86-114 | the first staged match itself, nothing changed; else a fresh clone of the first durable match, staged; else NotFound, nothing changed; the durable collection never changes |
| InmemRepository.Repository.FindOneTwice | inmem/repository.go:92-96 | a second lookup with the same predicate returns the same instance as the first, not another clone |
| InmemRepository.Repository.StagedMatches | inmem/repository.go:130-134 | the staged entities the predicate accepts, in staged order |
| InmemRepository.Repository.ContainsIdentity | inmem/repository.go:142-144 | whether a collected value is identity-equal to the durable one |
| InmemRepository.Repository.IsNewIdentity | inmem/repository.go:141-146 | whether the durable value's identity is among neither the staged matches nor the clones made so far |
| InmemRepository.Repository.CloneDurable | inmem/repository.go:136-152 | fresh copies of exactly the durable entities `PicksFrom` selects, in order, each appended to the transaction |
| InmemRepository.Repository.FindAll | inmem/repository.go:122-155 | all staged matches in order, then fresh staged clones of exactly the durable matches whose identity was not collected; never an error |
| InmemRepository.Repository.Persist | inmem/repository.go:173-184 | the staged entity replaces the first identity-equal durable entity in place, or is appended |
| InmemRepository.Repository.ConflictsWithDurable | inmem/repository.go:162-170 | whether some durable entity not identity-equal to the staged value is constraint-equal to it |
| InmemRepository.Repository.FindConflict | inmem/repository.go:161-171 | whether any staged entity conflicts with a durable one |
| InmemRepository.Repository.PersistStaged | inmem/repository.go:186-192 | the staged entities persisted in order, their events collected in order and then reset |
| InmemRepository.Repository.Save | inmem/repository.go:159-197 | fails exactly on a conflict, and then nothing changes; otherwise the durable collection, returned events and emptied transaction are those of the specification; an empty transaction changes nothing |
| InmemRepository.Repository.Reset | inmem/repository.go:201-203 | the transaction becomes empty; the durable collection is unchanged |
| InmemUnitOfWork.UnitOfWork.constructor | inmem/unit_of_work.go:22-28 | the unit of work holds the given repositories |
| InmemUnitOfWork.UnitOfWork.ResetRepos | inmem/unit_of_work.go:36-40 | every repository's transaction becomes empty; durable collections unchanged |
| InmemUnitOfWork.UnitOfWork.SaveInOrder | inmem/unit_of_work.go:55-64 | saves in list order and stops at the first failing repository, returning its error with no events. Each repository before it is committed, its transaction emptied and its staged entities' events cleared. The failing repository and every later one keep their durable collection, their transaction and their staged entities' events. On success the events returned are each repository's batch, concatenated in order |
| InmemUnitOfWork.UnitOfWork.Commit | inmem/unit_of_work.go:44-64 | when `f` fails, its error is returned with no events, and no durable collection and no staged entity's events change. Otherwise it acts as the save loop: saved repositories are committed with their staged entities' events cleared, and unsaved ones keep their durable collection and their staged entities' events. Every transaction is empty on every path |
| Mappers.New | mapper/mapper.go:10-61 | an odd-length list fails before any pair is read; otherwise the result is that of the specification `Build` |
| Mappers.MustNew | mapper/mapper.go:63-73 | on a list `New` accepts, two inverse maps holding every listed pair |
| Mappers.BuildOk | mapper/mapper.go:10-61 | `New` succeeds exactly on an even, well-typed list with no key and no value repeated; then the maps are inverses, and `To(k) = v` and `From(v) = k` for every pair |
| Mappers.BuildFromOkIff | mapper/mapper.go:25-58 | the loop succeeds exactly when every remaining pair is well typed and no key or value repeats or is already mapped |
| Mappers.BuildFromContents | mapper/mapper.go:54-55 | the loop keeps the maps inverse, keeps existing entries and maps every pair |
| Mappers.BuildFromSplit | mapper/mapper.go:25-58 | running the loop over two stretches is running it over the first, then over the second |
| Mappers.PairChecksInOrder | mapper/mapper.go:30-52 | after accepted pairs, the next pair fails as a mistyped key, then a repeated key, then a mistyped value, then a repeated value, in that order |
| Mappers.To | mapper/mapper.go:75-81 | the value mapped to the key when the key has a mapping, otherwise NoMappingFound |
| Mappers.ToWithDefault | mapper/mapper.go:83-88 | the value mapped to the key when the key has a mapping, otherwise the default |
| Mappers.From | mapper/mapper.go:90-96 | the key mapped to the value when the value has a mapping, otherwise NoMappingFound |
| Mappers.FromWithDefault | mapper/mapper.go:98-103 | the key mapped to the value when the value has a mapping, otherwise the default |
| Mappers.RoundTrips | mapper/mapper.go:75-96 | `To`/`From` fail with NoMappingFound exactly off the map; `From(To(k)) = k` and `To(From(v)) = v` |
| Mappers.WithDefaultAgrees | mapper/mapper.go:83-103 | the default variants agree with `To`/`From` where those succeed and give the default where they fail |
| States.State.constructor | state/state.go:13-15 | the bare state value: the given table and current state, unchecked |
| States.NewState | state/state.go:17-29 | fails exactly when the initial state is not a key of the table; otherwise a fresh machine in that state |
| States.State.Transition | state/state.go:31-50 | no entry for the current state: InvalidCurrentState; target not allowed: InvalidTransition; both leave the state unchanged; otherwise the current state becomes the target |
| States.State.Get | state/state.go:52-54 | returns the current state, changing nothing |
| States.StepMovesAlongEdges | state/state.go:31-50 | one call fails and stays, or moves along an edge of the table; the error names which check failed |
| States.WalkFollowsTable | state/state.go:31-50 | the states a run of calls passes through form a path of the table from the initial state to the final one |
| States.NoEntryIsTrap | state/state.go:32-38 | from a state without a table entry every later call fails and the machine never moves |

## Left out

- `Start`'s select loop, `Stop` and `HandleCommand` are left out: they are channels, context cancellation and a wait group. Only the `started` flag and one turn of the loop (`ProcessCommand`) are modelled.
- Logging calls have no behaviour and are left out.
- The `RegisterCommandHandler`/`RegisterEventHandler` wrappers and `handler.go` are reflection and type assertions; abstract type tags stand for them.
- The event and identifier plumbing (`messages/event.go`, `messages/command.go`, `event.go`, `event_id.go`, `command.go`) generates identifiers from a wall clock that is not modelled. Events carry only a type tag, an identifier (0 for nil), an initialised flag, and an integer payload that stands for the event's own fields. Commands likewise carry a type tag and an integer payload. The two mixins' event types are one `Event` datatype.
- `messagebus/metrics.go` configures fields the bus in `messagebus.go` does not have; it is not part of this model.
- `CreateRepository`'s nil-function checks are left out: Dafny function values are never nil.
- Go zero values are left out. A failed `To`/`From`/`FindOne` returns only the error, a failed `NewState` returns no state, and a failed `New` returns no mapper.
- `MustNew`'s panic is a precondition.
- The mapper's floating-point test case is left out, because the model has no floating point.
- Bus.MessageBus.DispatchEvents: dequeues at most `fuel` events, because handlers can cascade forever. `Bus.CascadeDrains` shows that a cascade that ends drains completely given enough fuel.
- InmemUnitOfWork.UnitOfWork.Commit: the reset before `f` is `ResetRepos` and the caller's `f` runs between the two calls, because a function value cannot change the heap.
- InmemUnitOfWork.UnitOfWork.Commit: its per-repository save outcomes hold only when no repository occurs twice in the list and no entity is staged in two repositories (`Separate`). Otherwise saving one repository could change what another saves.
- InmemUnitOfWork.UnitOfWork.SaveInOrder: the same `Separate` condition.
- InmemRepository.Entity.Clone: in Go, `Clone`, `GetEvents` and `ResetEvents` are the caller's own methods, and the entity interface promises only that `Clone` returns a copy. The model fixes them to an exact copy of the value and events, a read of the events, and a clear. `InmemRepository.Repository.FindOne`, `InmemRepository.Repository.CloneDurable`, `InmemRepository.Repository.FindAll` (through `CopiesAt`) and `InmemRepository.Repository.FindOneTwice` rely on that. A `Clone` that copies only part of an entity is outside the model.
- Bus.MessageBus.DispatchEvents: handlers are pure function values, so a handler given the same message always returns the same events and error. Go handlers are closures that may keep mutable state, such as a counter or a unit of work of their own. `Bus.Drain`, `Bus.Level`, `Bus.BreadthFirst`, `Bus.CascadeDrains`, `Bus.DrainOneLevel`, `Bus.DrainCompose` and `Bus.MessageBus.ProcessCommand` rely on that purity. A handler whose result depends on earlier calls, or whose run changes other handlers' results, is outside the model.
- Bus.MessageBus.ProcessCommand: drains at most `fuel` events, as `Bus.MessageBus.DispatchEvents` does. `Bus.CascadeDrains` gives the full drain of a cascade that ends.
- InmemRepository.Repository.FindOne: modelled as written. A staged clone that no longer matches the predicate does not shadow its durable original, so a second `FindOne` stages another clone of it. `Save` then persists the later clone over the earlier one (`InmemRepository.LaterStagedOverwrites`). The model does not promise that every change made to a returned entity persists.
- InmemRepository.Repository.Save: it checks staged entities only against durable ones, never against each other, as the code does. So two staged entities changed after `Add` to be constraint-equal are both persisted. The model claims no uniqueness invariant for the durable collection.
- InmemUnitOfWork.UnitOfWork.Commit: all repositories hold one entity type `V`, where Go allows each its own.
- States.NewState: treats the table that `Transitions()` returns as the same for every value of the state type, and stores it as a constant field of the machine.
