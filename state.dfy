/** The transition-table state machine of `state/state.go`: a current state
    that moves only along the edges of a table mapping every known state to
    the states it may go to next. */
module States {
  import opened Wrappers

  /** The transition table of a state type. A state that is not a key is not
      a valid state: it has no entry, so nothing can leave it. */
  type Table<S> = map<S, seq<S>>

  datatype StateError<S> =
    | InvalidInitialState(initial: S)
    | InvalidCurrentState(current: S)
    | InvalidTransition(from: S, to: S)

  /** What `Transition(to)` does from `current`: the state it leaves and the
      error it returns. The entry of `current` is looked up first, then `to`
      is searched in it; nothing moves on either error. */
  function Step<S(==)>(table: Table<S>, current: S, to: S): (S, Option<StateError<S>>)
  {
    if current !in table then (current, Some(InvalidCurrentState(current)))
    else if to !in table[current] then (current, Some(InvalidTransition(current, to)))
    else (to, None)
  }

  /** The state reached by calling `Transition` with each of `tos` in turn,
      whatever each call returned. */
  function Walk<S(==)>(table: Table<S>, current: S, tos: seq<S>): S
    decreases |tos|
  {
    if tos == [] then current else Walk(table, Step(table, current, tos[0]).0, tos[1..])
  }

  /** The states entered along the same run: `current`, then the target of
      each call that succeeded. */
  function Entered<S(==)>(table: Table<S>, current: S, tos: seq<S>): (states: seq<S>)
    decreases |tos|
  {
    if tos == [] then [current]
    else
      var (next, err) := Step(table, current, tos[0]);
      if err.None? then [current] + Entered(table, next, tos[1..]) else Entered(table, current, tos[1..])
  }

  /** `states` follows edges of `table`: each state but the last is a key and
      lists the one after it. */
  predicate Path<S(==)>(table: Table<S>, states: seq<S>)
  {
    forall i :: 0 <= i < |states| - 1 ==> states[i] in table && states[i + 1] in table[states[i]]
  }

  /** One call either fails and stays, or moves along an edge of the table;
      it fails exactly when the current state has no entry or `to` is not in
      it, and the error says which. */
  lemma StepMovesAlongEdges<S>(table: Table<S>, current: S, to: S)
    ensures var (next, err) := Step(table, current, to);
      && (err.None? <==> current in table && to in table[current])
      && (err.None? ==> next == to)
      && (err.Some? ==> next == current)
      && (err == Some(InvalidCurrentState(current)) <==> current !in table)
      && (err == Some(InvalidTransition(current, to)) <==> current in table && to !in table[current])
  {
  }

  /** Whatever sequence of calls is made, the states the machine passes
      through form a path of the table that starts at the initial state and
      ends at the state it is left in. */
  lemma {:induction false} WalkFollowsTable<S>(table: Table<S>, current: S, tos: seq<S>)
    ensures var states := Entered(table, current, tos);
      && |states| >= 1
      && states[0] == current
      && states[|states| - 1] == Walk(table, current, tos)
      && Path(table, states)
    decreases |tos|
  {
    if tos != [] {
      var (next, err) := Step(table, current, tos[0]);
      WalkFollowsTable(table, next, tos[1..]);
      WalkFollowsTable(table, current, tos[1..]);
      if err.None? {
        var rest := Entered(table, next, tos[1..]);
        var states := [current] + rest;
        assert states[1..] == rest;
        forall i | 0 <= i < |states| - 1
          ensures states[i] in table && states[i + 1] in table[states[i]]
        {
          if i > 0 {
            assert states[i] == rest[i - 1] && states[i + 1] == rest[i];
          }
        }
      }
    }
  }

  /** A state without an entry in the table is a trap: every later call fails
      with `InvalidCurrentState` and the machine never leaves it. */
  lemma {:induction false} NoEntryIsTrap<S>(table: Table<S>, current: S, tos: seq<S>)
    requires current !in table
    ensures Walk(table, current, tos) == current
    ensures Entered(table, current, tos) == [current]
    decreases |tos|
  {
    if tos != [] {
      NoEntryIsTrap(table, current, tos[1..]);
    }
  }

  /** A state machine: the table of its state type and the current state. The
      constructor is the bare struct value, current state unchecked; `NewState`
      is the checked way to make one. */
  class State<S(==)> {
    const transitions: Table<S>
    var current: S

    constructor (transitions: Table<S>, current: S)
      ensures this.transitions == transitions && this.current == current
    {
      this.transitions := transitions;
      this.current := current;
    }

    /** Moves to `to` when the table allows it from the current state;
        otherwise reports why and stays. */
    method Transition(to: S) returns (err: Option<StateError<S>>)
      modifies this`current
      ensures old(current) !in transitions ==>
        err == Some(InvalidCurrentState(old(current))) && current == old(current)
      ensures old(current) in transitions && to !in transitions[old(current)] ==>
        err == Some(InvalidTransition(old(current), to)) && current == old(current)
      ensures old(current) in transitions && to in transitions[old(current)] ==>
        err == None && current == to
      ensures (current, err) == Step(transitions, old(current), to)
    {
      if current !in transitions {
        return Some(InvalidCurrentState(current));
      }
      var allowed := transitions[current];
      if to !in allowed {
        return Some(InvalidTransition(current, to));
      }
      current := to;
      err := None;
    }

    /** The current state; nothing changes. */
    method Get() returns (s: S)
      ensures s == current
    {
      s := current;
    }
  }

  /** A state machine starting in `s`, which must be a key of the table. */
  method NewState<S(==)>(table: Table<S>, s: S) returns (r: Result<State<S>, StateError<S>>)
    ensures r.Err? <==> s !in table
    ensures r.Err? ==> r.error == InvalidInitialState(s)
    ensures r.Ok? ==> fresh(r.value) && r.value.current == s && r.value.transitions == table
  {
    if s !in table {
      return Err(InvalidInitialState(s));
    }
    var state := new State(table, s);
    return Ok(state);
  }
}
