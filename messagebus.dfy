/** The message bus of `messagebus.go`: a registry holding one handler per
    command type and an ordered list of handlers per event type, guarded by a
    `started` flag, and the dispatch of one command followed by the
    breadth-first draining of the event queue. */
module Bus {
  import opened Wrappers
  import opened Messages
  import Queues

  /** Handlers are opaque function values; the context argument is left out. */
  type CommandHandler = Command -> HandlerResult
  type EventHandler = Event -> HandlerResult

  datatype BusError =
    | RegisteredAfterStart
    | DuplicateCommandHandler(commandType: TypeTag)
    | NoCommandHandler(commandType: TypeTag)
    | CommandFailed(cause: HandlerError)

  /** One entry of the bus's log of what it ran: a command handler, the
      dequeuing of an event, or the `handler`-th handler registered for the
      event's type. It stands for the side effects the handlers have. */
  datatype Invocation =
    | CommandHandled(command: Command)
    | EventDispatched(event: Event)
    | EventHandled(event: Event, handler: nat)

  // ---------------------------------------------------------------------------
  // Registration
  // ---------------------------------------------------------------------------

  datatype Registry = Registry(
    started: bool,
    commandHandlers: map<TypeTag, CommandHandler>,
    eventHandlers: map<TypeTag, seq<EventHandler>>)

  /** The handler list of an event type; a type never registered has none. */
  function HandlersFor(eventHandlers: map<TypeTag, seq<EventHandler>>, t: TypeTag): seq<EventHandler>
  {
    if t in eventHandlers then eventHandlers[t] else []
  }

  /** The registry and the error after `registerCommandHandler`. */
  function RegisterCommand(r: Registry, t: TypeTag, h: CommandHandler): (Registry, Option<BusError>)
  {
    if r.started then (r, Some(RegisteredAfterStart))
    else if t in r.commandHandlers then (r, Some(DuplicateCommandHandler(t)))
    else (r.(commandHandlers := r.commandHandlers[t := h]), None)
  }

  /** The registry and the error after `registerEventHandler`. */
  function RegisterEvent(r: Registry, t: TypeTag, h: EventHandler): (Registry, Option<BusError>)
  {
    if r.started then (r, Some(RegisteredAfterStart))
    else (r.(eventHandlers := r.eventHandlers[t := HandlersFor(r.eventHandlers, t) + [h]]), None)
  }

  /** One registration call, for reasoning about runs of them. */
  datatype Registration =
    | OnCommand(commandType: TypeTag, commandHandler: CommandHandler)
    | OnEvent(eventType: TypeTag, eventHandler: EventHandler)

  function Register(r: Registry, reg: Registration): (Registry, Option<BusError>)
  {
    match reg
    case OnCommand(t, h) => RegisterCommand(r, t, h)
    case OnEvent(t, h) => RegisterEvent(r, t, h)
  }

  /** The registry after a run of registration calls, whatever each returned. */
  function RegisterAll(r: Registry, regs: seq<Registration>): Registry
    decreases |regs|
  {
    if regs == [] then r else RegisterAll(Register(r, regs[0]).0, regs[1..])
  }

  /** The event handlers a run registers for type `t`, in registration order. */
  function EventHandlersOf(regs: seq<Registration>, t: TypeTag): seq<EventHandler>
  {
    if regs == [] then []
    else if regs[0].OnEvent? && regs[0].eventType == t then [regs[0].eventHandler] + EventHandlersOf(regs[1..], t)
    else EventHandlersOf(regs[1..], t)
  }

  /** The first command handler a run registers for type `t`, if any. */
  function FirstCommandHandlerOf(regs: seq<Registration>, t: TypeTag): Option<CommandHandler>
  {
    if regs == [] then None
    else if regs[0].OnCommand? && regs[0].commandType == t then Some(regs[0].commandHandler)
    else FirstCommandHandlerOf(regs[1..], t)
  }

  /** Once the bus has started, no run of registrations changes anything. */
  lemma {:induction false} RegisterAllAfterStart(r: Registry, regs: seq<Registration>)
    requires r.started
    ensures RegisterAll(r, regs) == r
    decreases |regs|
  {
    if regs != [] {
      RegisterAllAfterStart(Register(r, regs[0]).0, regs[1..]);
    }
  }

  /** Before start, every event handler registered is kept, appended after the
      ones already there in registration order, duplicates included. */
  lemma {:induction false} EventHandlersInRegistrationOrder(r: Registry, regs: seq<Registration>, t: TypeTag)
    requires !r.started
    ensures !RegisterAll(r, regs).started
    ensures HandlersFor(RegisterAll(r, regs).eventHandlers, t) == HandlersFor(r.eventHandlers, t) + EventHandlersOf(regs, t)
    decreases |regs|
  {
    if regs != [] {
      var next := Register(r, regs[0]).0;
      RegisterOneEvent(r, regs[0], t);
      EventHandlersInRegistrationOrder(next, regs[1..], t);
      var added := if regs[0].OnEvent? && regs[0].eventType == t then [regs[0].eventHandler] else [];
      assert HandlersFor(r.eventHandlers, t) + added + EventHandlersOf(regs[1..], t)
          == HandlersFor(r.eventHandlers, t) + (added + EventHandlersOf(regs[1..], t));
    }
  }

  /** Before start, one registration call appends its handler to the list of
      its own event type and leaves every other list alone. */
  lemma RegisterOneEvent(r: Registry, reg: Registration, t: TypeTag)
    requires !r.started
    ensures !Register(r, reg).0.started
    ensures HandlersFor(Register(r, reg).0.eventHandlers, t)
         == HandlersFor(r.eventHandlers, t) + (if reg.OnEvent? && reg.eventType == t then [reg.eventHandler] else [])
  {
    if !(reg.OnEvent? && reg.eventType == t) {
      assert HandlersFor(r.eventHandlers, t) + [] == HandlersFor(r.eventHandlers, t);
    }
  }

  /** Before start, a command type ends up with a handler exactly when it had one
      or the run registers one; the handler kept is the one it had, otherwise the
      first one registered: later registrations for the type are all refused. */
  lemma {:induction false} FirstCommandHandlerKept(r: Registry, regs: seq<Registration>, t: TypeTag)
    requires !r.started
    ensures var out := RegisterAll(r, regs).commandHandlers;
      && (t in out <==> t in r.commandHandlers || FirstCommandHandlerOf(regs, t).Some?)
      && (t in r.commandHandlers ==> out[t] == r.commandHandlers[t])
      && (t !in r.commandHandlers && FirstCommandHandlerOf(regs, t).Some? ==> out[t] == FirstCommandHandlerOf(regs, t).value)
    decreases |regs|
  {
    if regs != [] {
      var next := Register(r, regs[0]).0;
      assert !next.started;
      FirstCommandHandlerKept(next, regs[1..], t);
    }
  }

  // ---------------------------------------------------------------------------
  // Dispatch
  // ---------------------------------------------------------------------------

  /** What dispatching a command does: the error returned, the events it puts
      into the queue and what it logs. */
  function CommandOutcome(commandHandlers: map<TypeTag, CommandHandler>, command: Command)
    : (Option<BusError>, seq<Event>, seq<Invocation>)
  {
    if command.typ !in commandHandlers then (Some(NoCommandHandler(command.typ)), [], [])
    else
      var result := commandHandlers[command.typ](command);
      if result.err.Some? then (Some(CommandFailed(result.err.value)), [], [CommandHandled(command)])
      else (None, result.events, [CommandHandled(command)])
  }

  /** The events returned by running `handlers` in order on `e`, whether or not
      each one also returned an error. */
  function Produced(handlers: seq<EventHandler>, e: Event): seq<Event>
    decreases |handlers|
  {
    if handlers == [] then []
    else Produced(handlers[..|handlers| - 1], e) + handlers[|handlers| - 1](e).events
  }

  /** The log of running the first `n` handlers of a type on `e`. */
  function Handled(e: Event, n: nat): seq<Invocation>
  {
    if n == 0 then [] else Handled(e, n - 1) + [EventHandled(e, n - 1)]
  }

  /** The log of dispatching one dequeued event. */
  function EventLog(eventHandlers: map<TypeTag, seq<EventHandler>>, e: Event): seq<Invocation>
  {
    [EventDispatched(e)] + Handled(e, |HandlersFor(eventHandlers, e.typ)|)
  }

  datatype Drained = Drained(remaining: seq<Event>, log: seq<Invocation>)

  /** The queue left and the log after `dispatchEvents` has dequeued at most
      `fuel` events, starting from `queue`. */
  function Drain(eventHandlers: map<TypeTag, seq<EventHandler>>, queue: seq<Event>, fuel: nat): Drained
    decreases fuel
  {
    if queue == [] then Drained([], [])
    else if fuel == 0 then Drained(queue, [])
    else
      var e := queue[0];
      var rest := Drain(eventHandlers, queue[1..] + Produced(HandlersFor(eventHandlers, e.typ), e), fuel - 1);
      Drained(rest.remaining, EventLog(eventHandlers, e) + rest.log)
  }

  /** `Drain` unfolded once on a non-empty queue with fuel left, for callers
      that keep its definition hidden. */
  lemma DrainStep(eventHandlers: map<TypeTag, seq<EventHandler>>, q: seq<Event>, fuel: nat)
    requires q != [] && fuel > 0
    ensures var rest := Drain(eventHandlers, q[1..] + Produced(HandlersFor(eventHandlers, q[0].typ), q[0]), fuel - 1);
      Drain(eventHandlers, q, fuel) == Drained(rest.remaining, EventLog(eventHandlers, q[0]) + rest.log)
  {
  }

  /** `Drain` with nothing to dequeue, or no fuel to dequeue with, leaves the
      queue as it is and logs nothing. */
  lemma DrainIdle(eventHandlers: map<TypeTag, seq<EventHandler>>, q: seq<Event>, fuel: nat)
    requires q == [] || fuel == 0
    ensures Drain(eventHandlers, q, fuel) == Drained(q, [])
  {
  }

  /** The events the handlers return for the events of `q`, in order: the next
      level of the cascade. */
  function Expand(eventHandlers: map<TypeTag, seq<EventHandler>>, q: seq<Event>): seq<Event>
  {
    if q == [] then [] else Produced(HandlersFor(eventHandlers, q[0].typ), q[0]) + Expand(eventHandlers, q[1..])
  }

  /** The log of dispatching the events of `q` one after the other. */
  function LogOf(eventHandlers: map<TypeTag, seq<EventHandler>>, q: seq<Event>): seq<Invocation>
  {
    if q == [] then [] else EventLog(eventHandlers, q[0]) + LogOf(eventHandlers, q[1..])
  }

  /** Level `n` of the cascade that starts from the events `q`. */
  function Level(eventHandlers: map<TypeTag, seq<EventHandler>>, q: seq<Event>, n: nat): seq<Event>
  {
    if n == 0 then q else Expand(eventHandlers, Level(eventHandlers, q, n - 1))
  }

  /** How many events levels 0 to n-1 hold together. */
  function LevelsSize(eventHandlers: map<TypeTag, seq<EventHandler>>, q: seq<Event>, n: nat): nat
  {
    if n == 0 then 0 else LevelsSize(eventHandlers, q, n - 1) + |Level(eventHandlers, q, n - 1)|
  }

  /** Levels 0 to n-1 dispatched one whole level after the other. */
  function LevelsLog(eventHandlers: map<TypeTag, seq<EventHandler>>, q: seq<Event>, n: nat): seq<Invocation>
  {
    if n == 0 then [] else LevelsLog(eventHandlers, q, n - 1) + LogOf(eventHandlers, Level(eventHandlers, q, n - 1))
  }

  /** Dispatching the |q| events at the head of the queue appends what their
      handlers return behind whatever already waits, and logs them in order. */
  lemma {:induction false} DrainOneLevel(eventHandlers: map<TypeTag, seq<EventHandler>>, q: seq<Event>, waiting: seq<Event>)
    ensures Drain(eventHandlers, q + waiting, |q|) == Drained(waiting + Expand(eventHandlers, q), LogOf(eventHandlers, q))
    decreases |q|
  {
    if q == [] {
      assert q + waiting == waiting;
    } else {
      var e := q[0];
      var p := Produced(HandlersFor(eventHandlers, e.typ), e);
      assert (q + waiting)[0] == e;
      assert (q + waiting)[1..] + p == q[1..] + (waiting + p);
      DrainOneLevel(eventHandlers, q[1..], waiting + p);
      assert (waiting + p) + Expand(eventHandlers, q[1..]) == waiting + Expand(eventHandlers, q);
    }
  }

  /** Dequeuing a + b events is dequeuing a events and then b more. */
  lemma {:induction false} DrainCompose(eventHandlers: map<TypeTag, seq<EventHandler>>, q: seq<Event>, a: nat, b: nat)
    ensures var first := Drain(eventHandlers, q, a);
            var second := Drain(eventHandlers, first.remaining, b);
            Drain(eventHandlers, q, a + b) == Drained(second.remaining, first.log + second.log)
    decreases a
  {
    hide Drain, Produced, EventLog;
    if q == [] {
      DrainIdle(eventHandlers, q, a);
      DrainIdle(eventHandlers, q, a + b);
      DrainIdle(eventHandlers, q, b);
    } else if a == 0 {
      DrainIdle(eventHandlers, q, a);
      assert [] + Drain(eventHandlers, q, b).log == Drain(eventHandlers, q, b).log;
    } else {
      var next := q[1..] + Produced(HandlersFor(eventHandlers, q[0].typ), q[0]);
      DrainCompose(eventHandlers, next, a - 1, b);
      DrainComposeStep(eventHandlers, q, a, b);
    }
  }

  /** The inductive step of `DrainCompose`: composing after the first dequeue
      of `q` gives composing from `q` itself. */
  lemma DrainComposeStep(eventHandlers: map<TypeTag, seq<EventHandler>>, q: seq<Event>, a: nat, b: nat)
    requires q != [] && a > 0
    requires var next := q[1..] + Produced(HandlersFor(eventHandlers, q[0].typ), q[0]);
      var first := Drain(eventHandlers, next, a - 1);
      var second := Drain(eventHandlers, first.remaining, b);
      Drain(eventHandlers, next, a - 1 + b) == Drained(second.remaining, first.log + second.log)
    ensures var first := Drain(eventHandlers, q, a);
            var second := Drain(eventHandlers, first.remaining, b);
            Drain(eventHandlers, q, a + b) == Drained(second.remaining, first.log + second.log)
  {
    DrainStep(eventHandlers, q, a);
    DrainStep(eventHandlers, q, a + b);
    hide Drain, EventLog, Produced;
    var next := q[1..] + Produced(HandlersFor(eventHandlers, q[0].typ), q[0]);
    var first' := Drain(eventHandlers, next, a - 1);
    var second := Drain(eventHandlers, first'.remaining, b);
    var head := EventLog(eventHandlers, q[0]);
    assert Drain(eventHandlers, q, a) == Drained(first'.remaining, head + first'.log);
    assert Drain(eventHandlers, q, a + b) == Drained(second.remaining, head + (first'.log + second.log));
    assert head + (first'.log + second.log) == (head + first'.log) + second.log;
  }

  /** Breadth-first dispatch: once the events of levels 0 to n-1 have been
      dequeued, the log holds those levels one whole level after the other and
      the queue holds exactly level n. */
  lemma {:induction false} BreadthFirst(eventHandlers: map<TypeTag, seq<EventHandler>>, q: seq<Event>, n: nat)
    ensures Drain(eventHandlers, q, LevelsSize(eventHandlers, q, n))
         == Drained(Level(eventHandlers, q, n), LevelsLog(eventHandlers, q, n))
  {
    hide Drain, Expand, LogOf;
    if n == 0 {
      DrainIdle(eventHandlers, q, 0);
    } else {
      var before := LevelsSize(eventHandlers, q, n - 1);
      var last := Level(eventHandlers, q, n - 1);
      BreadthFirst(eventHandlers, q, n - 1);
      DrainCompose(eventHandlers, q, before, |last|);
      DrainOneLevel(eventHandlers, last, []);
      assert last + [] == last;
      assert [] + Expand(eventHandlers, last) == Level(eventHandlers, q, n);
    }
  }

  /** A cascade whose level n is empty drains completely given enough fuel,
      and its log is levels 0 to n-1 in level order. */
  lemma CascadeDrains(eventHandlers: map<TypeTag, seq<EventHandler>>, q: seq<Event>, n: nat, fuel: nat)
    requires Level(eventHandlers, q, n) == []
    requires fuel >= LevelsSize(eventHandlers, q, n)
    ensures Drain(eventHandlers, q, fuel) == Drained([], LevelsLog(eventHandlers, q, n))
  {
    var size := LevelsSize(eventHandlers, q, n);
    BreadthFirst(eventHandlers, q, n);
    DrainCompose(eventHandlers, q, size, fuel - size);
    assert LevelsLog(eventHandlers, q, n) + [] == LevelsLog(eventHandlers, q, n);
  }

  lemma {:induction false} HandledHas(e: Event, n: nat, x: Event, i: nat)
    ensures EventHandled(x, i) in Handled(e, n) <==> x == e && i < n
    ensures EventDispatched(x) !in Handled(e, n)
    decreases n
  {
    if n > 0 {
      HandledHas(e, n - 1, x, i);
    }
  }

  /** Dispatching the events of `q` dequeues every one of them, and runs on an
      event exactly the handlers registered for its own type. */
  lemma {:induction false} LogOfDelivers(eventHandlers: map<TypeTag, seq<EventHandler>>, q: seq<Event>, x: Event, i: nat)
    ensures EventDispatched(x) in LogOf(eventHandlers, q) <==> x in q
    ensures EventHandled(x, i) in LogOf(eventHandlers, q) <==> x in q && i < |HandlersFor(eventHandlers, x.typ)|
  {
    if q != [] {
      LogOfDelivers(eventHandlers, q[1..], x, i);
      HandledHas(q[0], |HandlersFor(eventHandlers, q[0].typ)|, x, i);
      assert x in q <==> x == q[0] || x in q[1..];
    }
  }

  /** With fuel for at least |q| events, the log of draining `q` starts with
      the dispatch of every event of `q`, in queue order. */
  lemma FirstLevelDelivered(eventHandlers: map<TypeTag, seq<EventHandler>>, q: seq<Event>, fuel: nat)
    requires fuel >= |q|
    ensures var log := Drain(eventHandlers, q, fuel).log;
      |LogOf(eventHandlers, q)| <= |log| && log[..|LogOf(eventHandlers, q)|] == LogOf(eventHandlers, q)
  {
    DrainCompose(eventHandlers, q, |q|, fuel - |q|);
    DrainOneLevel(eventHandlers, q, []);
    assert q + [] == q;
  }

  // ---------------------------------------------------------------------------
  // The bus
  // ---------------------------------------------------------------------------

  class MessageBus {
    var started: bool
    var commandHandlers: map<TypeTag, CommandHandler>
    var eventHandlers: map<TypeTag, seq<EventHandler>>
    const eventsToProcess: Queues.Queue<Event>
    ghost var trace: seq<Invocation>

    ghost function CurrentRegistry(): Registry
      reads this
    {
      Registry(started, commandHandlers, eventHandlers)
    }

    /** NewMessageBus: not started, no handlers, an empty queue. */
    constructor ()
      ensures !started && commandHandlers == map[] && eventHandlers == map[]
      ensures fresh(eventsToProcess) && eventsToProcess.items == [] && trace == []
    {
      started := false;
      commandHandlers := map[];
      eventHandlers := map[];
      eventsToProcess := new Queues.Queue<Event>();
      trace := [];
    }

    /** The compare-and-swap of `Start`: only the first call starts the bus. */
    method Start() returns (alreadyStarted: bool)
      modifies this`started
      ensures started
      ensures alreadyStarted == old(started)
    {
      alreadyStarted := started;
      started := true;
    }

    method RegisterCommandHandler(commandType: TypeTag, handler: CommandHandler) returns (err: Option<BusError>)
      modifies this`commandHandlers
      ensures started ==> err == Some(RegisteredAfterStart) && commandHandlers == old(commandHandlers)
      ensures !started && commandType in old(commandHandlers) ==>
        err == Some(DuplicateCommandHandler(commandType)) && commandHandlers == old(commandHandlers)
      ensures !started && commandType !in old(commandHandlers) ==>
        err == None && commandHandlers == old(commandHandlers)[commandType := handler]
      ensures (CurrentRegistry(), err) == RegisterCommand(old(CurrentRegistry()), commandType, handler)
    {
      if started {
        return Some(RegisteredAfterStart);
      }
      if commandType in commandHandlers {
        return Some(DuplicateCommandHandler(commandType));
      }
      commandHandlers := commandHandlers[commandType := handler];
      err := None;
    }

    method RegisterEventHandler(eventType: TypeTag, handler: EventHandler) returns (err: Option<BusError>)
      modifies this`eventHandlers
      ensures started ==> err == Some(RegisteredAfterStart) && eventHandlers == old(eventHandlers)
      ensures !started ==>
        err == None && eventHandlers == old(eventHandlers)[eventType := HandlersFor(old(eventHandlers), eventType) + [handler]]
      ensures (CurrentRegistry(), err) == RegisterEvent(old(CurrentRegistry()), eventType, handler)
    {
      if started {
        return Some(RegisteredAfterStart);
      }
      eventHandlers := eventHandlers[eventType := HandlersFor(eventHandlers, eventType) + [handler]];
      err := None;
    }

    method DispatchCommand(command: Command) returns (err: Option<BusError>)
      modifies this`trace, eventsToProcess
      ensures command.typ !in commandHandlers ==>
        err == Some(NoCommandHandler(command.typ))
        && eventsToProcess.items == old(eventsToProcess.items) && trace == old(trace)
      ensures command.typ in commandHandlers ==>
        var result := commandHandlers[command.typ](command);
        && trace == old(trace) + [CommandHandled(command)]
        && (result.err.Some? ==> err == Some(CommandFailed(result.err.value)) && eventsToProcess.items == old(eventsToProcess.items))
        && (result.err.None? ==> err == None && eventsToProcess.items == old(eventsToProcess.items) + result.events)
      ensures var (e, produced, log) := CommandOutcome(commandHandlers, command);
        err == e && eventsToProcess.items == old(eventsToProcess.items) + produced && trace == old(trace) + log
    {
      if command.typ !in commandHandlers {
        return Some(NoCommandHandler(command.typ));
      }
      var handler := commandHandlers[command.typ];
      var result := handler(command);
      trace := trace + [CommandHandled(command)];
      if result.err.Some? {
        return Some(CommandFailed(result.err.value));
      }
      eventsToProcess.EnqueueMultiple(result.events);
      err := None;
    }

    /** The inner loop of `dispatchEvents`: every handler registered for the
        event's type runs, in registration order, and the events each one returns
        go to the tail of the queue even when it also returns an error. */
    method RunEventHandlers(event: Event)
      modifies this`trace, eventsToProcess
      ensures eventsToProcess.items == old(eventsToProcess.items) + Produced(HandlersFor(eventHandlers, event.typ), event)
      ensures trace == old(trace) + Handled(event, |HandlersFor(eventHandlers, event.typ)|)
    {
      var handlers := HandlersFor(eventHandlers, event.typ);
      var i := 0;
      while i < |handlers|
        invariant i <= |handlers|
        invariant eventsToProcess.items == old(eventsToProcess.items) + Produced(handlers[..i], event)
        invariant trace == old(trace) + Handled(event, i)
      {
        var result := handlers[i](event);
        eventsToProcess.EnqueueMultiple(result.events);
        trace := trace + [EventHandled(event, i)];
        assert handlers[..i + 1][..i] == handlers[..i];
        i := i + 1;
      }
      assert handlers[..i] == handlers;
    }

    /** `dispatchEvents`, dequeuing at most `fuel` events. */
    method DispatchEvents(fuel: nat) returns (drained: bool)
      modifies this`trace, eventsToProcess
      ensures var d := Drain(eventHandlers, old(eventsToProcess.items), fuel);
        eventsToProcess.items == d.remaining && trace == old(trace) + d.log
      ensures drained <==> eventsToProcess.items == []
    {
      hide Drain, Produced, Handled;
      ghost var start := eventsToProcess.items;
      ghost var logged: seq<Invocation> := [];
      var steps: nat := 0;
      while steps < fuel
        invariant steps <= fuel
        invariant trace == old(trace) + logged
        invariant Drain(eventHandlers, start, fuel).remaining == Drain(eventHandlers, eventsToProcess.items, fuel - steps).remaining
        invariant Drain(eventHandlers, start, fuel).log == logged + Drain(eventHandlers, eventsToProcess.items, fuel - steps).log
      {
        ghost var before := eventsToProcess.items;
        if before == [] {
          DrainIdle(eventHandlers, before, fuel - steps);
        } else {
          DrainStep(eventHandlers, before, fuel - steps);
        }
        var next := eventsToProcess.Dequeue();
        if next.None? {
          return true;
        }
        var event := next.value;
        trace := trace + [EventDispatched(event)];
        RunEventHandlers(event);
        logged := logged + EventLog(eventHandlers, event);
        steps := steps + 1;
      }
      DrainIdle(eventHandlers, eventsToProcess.items, 0);
      drained := eventsToProcess.items == [];
    }

    /** One turn of the loop in `Start`: dispatch the command, then drain the
        queue (with at most `fuel` events), whatever the command returned. */
    method ProcessCommand(command: Command, fuel: nat) returns (err: Option<BusError>, drained: bool)
      modifies this`trace, eventsToProcess
      ensures var (e, produced, log) := CommandOutcome(commandHandlers, command);
        var d := Drain(eventHandlers, old(eventsToProcess.items) + produced, fuel);
        && err == e
        && eventsToProcess.items == d.remaining
        && trace == old(trace) + log + d.log
      ensures drained <==> eventsToProcess.items == []
    {
      err := DispatchCommand(command);
      drained := DispatchEvents(fuel);
    }
  }
}
