/** The in-memory repository of `inmem/repository.go`: a durable collection of
    entities and a staging area (the transaction) that every lookup and every
    addition goes through until `Save` persists it or `Reset` discards it. */
module InmemRepository {
  import opened Wrappers
  import opened Messages

  /** The two errors of `inmem/errors.go`. */
  datatype RepoError = NotFound | AlreadyExists

  /** A stored entity as the repository sees it: its value, which the caller's
      predicates inspect and the caller may change, and the events it has
      recorded since it was last saved. */
  class Entity<V> {
    var data: V
    var events: seq<Event>

    constructor (data: V, events: seq<Event>)
      ensures this.data == data && this.events == events
    {
      this.data := data;
      this.events := events;
    }

    /** A copy that shares no state with this entity. */
    method Clone() returns (c: Entity<V>)
      ensures fresh(c) && c.data == data && c.events == events
    {
      c := new Entity(data, events);
    }

    method GetEvents() returns (recorded: seq<Event>)
      ensures recorded == events
    {
      recorded := events;
    }

    method ResetEvents()
      modifies this`events
      ensures events == []
    {
      events := [];
    }
  }

  // ---------------------------------------------------------------------------
  // Specification functions on values
  // ---------------------------------------------------------------------------

  /** The position of the first element satisfying `p`, or `|vs|` when none does. */
  function FirstMatch<V>(p: V -> bool, vs: seq<V>): (i: nat)
    ensures i <= |vs|
    ensures i < |vs| ==> p(vs[i])
    ensures forall j :: 0 <= j < i ==> !p(vs[j])
  {
    if vs == [] then 0 else if p(vs[0]) then 0 else 1 + FirstMatch(p, vs[1..])
  }

  predicate Increasing(idx: seq<nat>)
  {
    forall k, l :: 0 <= k < l < |idx| ==> idx[k] < idx[l]
  }

  /** The positions of `vs` whose element satisfies `p`, in order. */
  function Matching<V>(p: V -> bool, vs: seq<V>): (idx: seq<nat>)
    ensures Increasing(idx)
    ensures forall k :: 0 <= k < |idx| ==> idx[k] < |vs|
    ensures forall j :: 0 <= j < |vs| ==> (j in idx <==> p(vs[j]))
  {
    if vs == [] then []
    else
      var prev := Matching(p, vs[..|vs| - 1]);
      if p(vs[|vs| - 1]) then prev + [|vs| - 1] else prev
  }

  /** The elements of `vs` at the positions `idx`. */
  function Pick<V>(vs: seq<V>, idx: seq<nat>): (r: seq<V>)
    requires forall k :: 0 <= k < |idx| ==> idx[k] < |vs|
    ensures |r| == |idx| && forall k :: 0 <= k < |idx| ==> r[k] == vs[idx[k]]
  {
    if idx == [] then [] else Pick(vs, idx[..|idx| - 1]) + [vs[idx[|idx| - 1]]]
  }

  /** Some collected value is identity-equal to `d`, the collected value being
      the first argument. */
  predicate Seen<V>(identityEqual: (V, V) -> bool, collected: seq<V>, d: V)
  {
    exists i :: 0 <= i < |collected| && identityEqual(collected[i], d)
  }

  /** The positions, from `j` on, of the durable values `ds` that `FindAll`
      clones when the values collected so far are `collected`: a matching
      durable value is cloned, and joins the collected values, unless
      something already collected has the same identity. */
  function PicksFrom<V>(p: V -> bool, identityEqual: (V, V) -> bool, collected: seq<V>, ds: seq<V>, j: nat): (idx: seq<nat>)
    ensures Increasing(idx)
    ensures forall k :: 0 <= k < |idx| ==> j <= idx[k] < |ds|
    decreases |ds| - j
  {
    if j >= |ds| then []
    else if p(ds[j]) && !Seen(identityEqual, collected, ds[j]) then
      [j] + PicksFrom(p, identityEqual, collected + [ds[j]], ds, j + 1)
    else
      PicksFrom(p, identityEqual, collected, ds, j + 1)
  }

  /** Some durable value `es[j]` is constraint-equal to `v` without being
      identity-equal to it, the durable value being the first argument. */
  predicate ConflictsWith<V>(identityEqual: (V, V) -> bool, constraintEqual: (V, V) -> bool, es: seq<V>, v: V)
  {
    exists j :: 0 <= j < |es| && !identityEqual(es[j], v) && constraintEqual(es[j], v)
  }

  /** Some staged value conflicts with the durable ones: `Save` must fail. */
  predicate SaveConflict<V>(identityEqual: (V, V) -> bool, constraintEqual: (V, V) -> bool, es: seq<V>, ts: seq<V>)
  {
    exists i :: 0 <= i < |ts| && ConflictsWith(identityEqual, constraintEqual, es, ts[i])
  }

  // ---------------------------------------------------------------------------
  // Specification functions on entities
  // ---------------------------------------------------------------------------

  ghost function Values<V>(es: seq<Entity<V>>): (vs: seq<V>)
    reads (set e | e in es)`data
    ensures |vs| == |es| && forall i :: 0 <= i < |es| ==> vs[i] == es[i].data
  {
    if es == [] then [] else Values(es[..|es| - 1]) + [es[|es| - 1].data]
  }

  /** `c` holds the same value and the same events as `d`. */
  ghost predicate CopyOf<V>(c: Entity<V>, d: Entity<V>)
    reads c, d
  {
    c.data == d.data && c.events == d.events
  }

  /** Each of `cs` is a copy of the entity of `es` at the matching position of `idx`. */
  ghost predicate CopiesAt<V>(cs: seq<Entity<V>>, es: seq<Entity<V>>, idx: seq<nat>)
    reads set c | c in cs, set e | e in es
  {
    && |cs| == |idx|
    && forall k :: 0 <= k < |idx| ==> idx[k] < |es| && CopyOf(cs[k], es[idx[k]])
  }

  /** The durable collection after one staged entity is persisted: it replaces
      the first identity-equal entity, or is appended when there is none. */
  ghost function PersistOne<V>(identityEqual: (V, V) -> bool, es: seq<Entity<V>>, t: Entity<V>): (r: seq<Entity<V>>)
    reads (set e | e in es)`data, t`data
    ensures forall x :: x in r ==> x in es || x == t
  {
    var v := t.data;
    var i := FirstMatch(x => identityEqual(x, v), Values(es));
    if i < |es| then es[i := t] else es + [t]
  }

  /** The durable collection after the staged entities are persisted in order. */
  ghost function PersistAll<V>(identityEqual: (V, V) -> bool, es: seq<Entity<V>>, ts: seq<Entity<V>>): (r: seq<Entity<V>>)
    reads (set e | e in es)`data, (set t | t in ts)`data
    ensures forall x :: x in r ==> x in es || x in ts
  {
    if ts == [] then es
    else PersistOne(identityEqual, PersistAll(identityEqual, es, ts[..|ts| - 1]), ts[|ts| - 1])
  }

  /** The events `Save` collects from the staged entities in order. An entity
      staged twice has had its events reset by the time it comes round again,
      so it contributes them once. */
  ghost function Harvest<V>(ts: seq<Entity<V>>): seq<Event>
    reads (set t | t in ts)`events
  {
    if ts == [] then []
    else
      var last := ts[|ts| - 1];
      Harvest(ts[..|ts| - 1]) + (if last in ts[..|ts| - 1] then [] else last.events)
  }

  // ---------------------------------------------------------------------------
  // What the specification functions promise
  // ---------------------------------------------------------------------------

  lemma SeenExtended<V>(identityEqual: (V, V) -> bool, collected: seq<V>, more: seq<V>, d: V)
    requires Seen(identityEqual, collected, d)
    ensures Seen(identityEqual, collected + more, d)
  {
    var i :| 0 <= i < |collected| && identityEqual(collected[i], d);
    assert (collected + more)[i] == collected[i];
  }

  /** `PersistAll` over each prefix of `ts` is `PersistOne` of the next
      staged entity over the previous prefix. */
  lemma PersistAllSteps<V>(identityEqual: (V, V) -> bool, es: seq<Entity<V>>, ts: seq<Entity<V>>)
    ensures PersistAll(identityEqual, es, []) == es
    ensures forall i :: 0 <= i < |ts| ==>
      PersistAll(identityEqual, es, ts[..i + 1]) == PersistOne(identityEqual, PersistAll(identityEqual, es, ts[..i]), ts[i])
  {
    forall i | 0 <= i < |ts|
      ensures PersistAll(identityEqual, es, ts[..i + 1]) == PersistOne(identityEqual, PersistAll(identityEqual, es, ts[..i]), ts[i])
    {
      assert ts[..i + 1][..i] == ts[..i];
    }
  }

  /** `Harvest` over each prefix of `ts` is the previous prefix's harvest
      followed by the next staged entity's events, unless it was staged before. */
  lemma HarvestSteps<V>(ts: seq<Entity<V>>)
    ensures Harvest<V>([]) == []
    ensures forall i :: 0 <= i < |ts| ==>
      Harvest(ts[..i + 1]) == Harvest(ts[..i]) + (if ts[i] in ts[..i] then [] else ts[i].events)
  {
    forall i | 0 <= i < |ts|
      ensures Harvest(ts[..i + 1]) == Harvest(ts[..i]) + (if ts[i] in ts[..i] then [] else ts[i].events)
    {
      assert ts[..i + 1][..i] == ts[..i];
    }
  }

  /** Before the staged loop of `FindAll` nothing has matched. */
  lemma StagedMatchStart<V>(p: V -> bool, ts: seq<Entity<V>>, tv: seq<V>)
    ensures Pick(ts, Matching(p, tv[..0])) == []
  {
  }

  /** One step of the staged loop of `FindAll`: the matches among the first
      `i + 1` entities of `ts`, whose values are `tv`, are those among the
      first `i`, followed by the next entity when it matches. */
  lemma StagedMatchStep<V>(p: V -> bool, ts: seq<Entity<V>>, tv: seq<V>, i: nat)
    requires |tv| == |ts| && i < |ts|
    ensures Pick(ts, Matching(p, tv[..i + 1])) ==
      Pick(ts, Matching(p, tv[..i])) + (if p(tv[i]) then [ts[i]] else [])
  {
    var prev := Matching(p, tv[..i]);
    assert tv[..i + 1][..i] == tv[..i];
    if p(tv[i]) {
      assert (prev + [i])[..|prev|] == prev;
    }
  }

  /** One step of `PicksFrom`, for callers that keep its definition hidden. */
  lemma PicksFromStep<V>(p: V -> bool, identityEqual: (V, V) -> bool, collected: seq<V>, ds: seq<V>, j: nat)
    ensures PicksFrom(p, identityEqual, collected, ds, j) ==
      if j >= |ds| then []
      else if p(ds[j]) && !Seen(identityEqual, collected, ds[j]) then
        [j] + PicksFrom(p, identityEqual, collected + [ds[j]], ds, j + 1)
      else
        PicksFrom(p, identityEqual, collected, ds, j + 1)
  {
  }

  /** How the picks still to come from `j` on split after position `j`, with
      `collected` being `sv + cv`. */
  lemma PicksFromAdvance<V>(p: V -> bool, identityEqual: (V, V) -> bool, sv: seq<V>, cv: seq<V>, ds: seq<V>, picked: seq<nat>, j: nat)
    requires j < |ds|
    ensures p(ds[j]) && !Seen(identityEqual, sv + cv, ds[j]) ==>
      picked + PicksFrom(p, identityEqual, sv + cv, ds, j)
        == (picked + [j]) + PicksFrom(p, identityEqual, sv + (cv + [ds[j]]), ds, j + 1)
    ensures !(p(ds[j]) && !Seen(identityEqual, sv + cv, ds[j])) ==>
      PicksFrom(p, identityEqual, sv + cv, ds, j) == PicksFrom(p, identityEqual, sv + cv, ds, j + 1)
  {
    PicksFromStep(p, identityEqual, sv + cv, ds, j);
    assert sv + cv + [ds[j]] == sv + (cv + [ds[j]]);
    var rest := PicksFrom(p, identityEqual, sv + (cv + [ds[j]]), ds, j + 1);
    assert picked + ([j] + rest) == (picked + [j]) + rest;
  }

  lemma SeenConcat<V>(identityEqual: (V, V) -> bool, a: seq<V>, b: seq<V>, d: V)
    ensures Seen(identityEqual, a + b, d) <==> Seen(identityEqual, a, d) || Seen(identityEqual, b, d)
  {
    if Seen(identityEqual, a + b, d) {
      var i :| 0 <= i < |a + b| && identityEqual((a + b)[i], d);
      if i >= |a| {
        assert b[i - |a|] == (a + b)[i];
      }
    }
    if Seen(identityEqual, b, d) {
      var i :| 0 <= i < |b| && identityEqual(b[i], d);
      assert (a + b)[|a| + i] == b[i];
    }
    if Seen(identityEqual, a, d) {
      SeenExtended(identityEqual, a, b, d);
    }
  }

  lemma SeenSplit<V>(identityEqual: (V, V) -> bool, collected: seq<V>, d: V, x: V)
    requires Seen(identityEqual, collected + [d], x)
    ensures Seen(identityEqual, collected, x) || identityEqual(d, x)
  {
    var i :| 0 <= i < |collected + [d]| && identityEqual((collected + [d])[i], x);
    if i < |collected| {
      assert collected[i] == (collected + [d])[i];
    }
  }

  /** Every picked position of `ds` holds a value satisfying `p` that is not
      identity-equal to a value collected beforehand, and no two picked
      values share an identity. */
  predicate PicksSound<V>(p: V -> bool, identityEqual: (V, V) -> bool, collected: seq<V>, ds: seq<V>, idx: seq<nat>)
    requires forall k :: 0 <= k < |idx| ==> idx[k] < |ds|
  {
    && (forall k :: 0 <= k < |idx| ==> p(ds[idx[k]]) && !Seen(identityEqual, collected, ds[idx[k]]))
    && (forall k, l :: 0 <= k < l < |idx| ==> !identityEqual(ds[idx[k]], ds[idx[l]]))
  }

  /** Every matching position of `ds` from `j` on that is left unpicked holds a
      value identity-equal to one collected beforehand or to one picked
      before it. */
  predicate PicksComplete<V>(p: V -> bool, identityEqual: (V, V) -> bool, collected: seq<V>, ds: seq<V>, j: nat, idx: seq<nat>)
    requires forall k :: 0 <= k < |idx| ==> idx[k] < |ds|
  {
    forall i :: j <= i < |ds| && p(ds[i]) && i !in idx ==>
      || Seen(identityEqual, collected, ds[i])
      || exists k :: 0 <= k < |idx| && idx[k] < i && identityEqual(ds[idx[k]], ds[i])
  }

  /** `FindAll` clones only matching durable values not identity-equal to a
      staged match, and never two of the same identity. */
  lemma {:induction false} PicksFromSound<V>(p: V -> bool, identityEqual: (V, V) -> bool, collected: seq<V>, ds: seq<V>, j: nat)
    ensures PicksSound(p, identityEqual, collected, ds, PicksFrom(p, identityEqual, collected, ds, j))
    decreases |ds| - j
  {
    if j < |ds| {
      var d := ds[j];
      var idx := PicksFrom(p, identityEqual, collected, ds, j);
      if p(d) && !Seen(identityEqual, collected, d) {
        var more := collected + [d];
        var rest := PicksFrom(p, identityEqual, more, ds, j + 1);
        PicksFromSound(p, identityEqual, more, ds, j + 1);
        assert idx == [j] + rest;
        forall k | 0 <= k < |rest|
          ensures !Seen(identityEqual, collected, ds[rest[k]]) && !identityEqual(d, ds[rest[k]])
        {
          assert !Seen(identityEqual, more, ds[rest[k]]);
          if Seen(identityEqual, collected, ds[rest[k]]) {
            SeenExtended(identityEqual, collected, [d], ds[rest[k]]);
          }
          assert more[|collected|] == d;
        }
        forall k | 0 <= k < |idx|
          ensures p(ds[idx[k]]) && !Seen(identityEqual, collected, ds[idx[k]])
        {
          if k > 0 {
            assert idx[k] == rest[k - 1];
          }
        }
        forall k, l | 0 <= k < l < |idx|
          ensures !identityEqual(ds[idx[k]], ds[idx[l]])
        {
          assert idx[l] == rest[l - 1];
          if k > 0 {
            assert idx[k] == rest[k - 1];
          }
        }
      } else {
        PicksFromSound(p, identityEqual, collected, ds, j + 1);
      }
    }
  }

  /** Picking the matching value at `j` keeps the unpicked positions from `j`
      on accounted for, given that those after `j` are accounted for by the
      values collected with it. */
  lemma CompleteAfterPick<V>(p: V -> bool, identityEqual: (V, V) -> bool, collected: seq<V>, ds: seq<V>, j: nat, rest: seq<nat>)
    requires j < |ds|
    requires forall k :: 0 <= k < |rest| ==> j < rest[k] < |ds|
    requires PicksComplete(p, identityEqual, collected + [ds[j]], ds, j + 1, rest)
    ensures PicksComplete(p, identityEqual, collected, ds, j, [j] + rest)
  {
    var d := ds[j];
    var idx := [j] + rest;
    forall i | j <= i < |ds| && p(ds[i]) && i !in idx
      ensures || Seen(identityEqual, collected, ds[i])
              || exists k :: 0 <= k < |idx| && idx[k] < i && identityEqual(ds[idx[k]], ds[i])
    {
      assert i != j && i !in rest;
      if Seen(identityEqual, collected + [d], ds[i]) {
        SeenSplit(identityEqual, collected, d, ds[i]);
        if identityEqual(d, ds[i]) {
          assert idx[0] == j;
        }
      } else {
        var k' :| 0 <= k' < |rest| && rest[k'] < i && identityEqual(ds[rest[k']], ds[i]);
        assert idx[k' + 1] == rest[k'];
      }
    }
  }

  /** `FindAll` skips a matching durable value only when something collected
      before it has the same identity. */
  lemma {:induction false} PicksFromComplete<V>(p: V -> bool, identityEqual: (V, V) -> bool, collected: seq<V>, ds: seq<V>, j: nat)
    ensures PicksComplete(p, identityEqual, collected, ds, j, PicksFrom(p, identityEqual, collected, ds, j))
    decreases |ds| - j
  {
    PicksFromStep(p, identityEqual, collected, ds, j);
    hide PicksFrom;
    if j < |ds| {
      var d := ds[j];
      if p(d) && !Seen(identityEqual, collected, d) {
        PicksFromComplete(p, identityEqual, collected + [d], ds, j + 1);
        CompleteAfterPick(p, identityEqual, collected, ds, j, PicksFrom(p, identityEqual, collected + [d], ds, j + 1));
      } else {
        PicksFromComplete(p, identityEqual, collected, ds, j + 1);
      }
    }
  }

  /** A durable entity whose value is not identity-equal (as the first
      argument) to any staged value keeps its slot when the staged entities are
      persisted. */
  lemma {:induction false} PersistAllKeeps<V>(identityEqual: (V, V) -> bool, es: seq<Entity<V>>, ts: seq<Entity<V>>, j: nat)
    requires j < |es|
    requires forall t :: t in ts ==> !identityEqual(es[j].data, t.data)
    ensures |PersistAll(identityEqual, es, ts)| >= |es|
    ensures PersistAll(identityEqual, es, ts)[j] == es[j]
    decreases |ts|
  {
    if ts != [] {
      var front := ts[..|ts| - 1];
      PersistAllKeeps(identityEqual, es, front, j);
    }
  }

  /** A staged entity not identity-equal (as the first argument) to any entity
      staged after it is in the durable collection once all are persisted. */
  lemma {:induction false} PersistAllContains<V>(identityEqual: (V, V) -> bool, es: seq<Entity<V>>, ts: seq<Entity<V>>, i: nat)
    requires i < |ts|
    requires forall k :: i < k < |ts| ==> !identityEqual(ts[i].data, ts[k].data)
    ensures ts[i] in PersistAll(identityEqual, es, ts)
    decreases |ts|
  {
    var front := ts[..|ts| - 1];
    var t := ts[|ts| - 1];
    if i < |ts| - 1 {
      PersistAllContains(identityEqual, es, front, i);
      var before := PersistAll(identityEqual, es, front);
      var pos :| 0 <= pos < |before| && before[pos] == ts[i];
      var v := t.data;
      var slot := FirstMatch(x => identityEqual(x, v), Values(before));
      if slot < |before| {
        assert slot != pos;
        assert PersistAll(identityEqual, es, ts)[pos] == ts[i];
      } else {
        assert PersistAll(identityEqual, es, ts)[pos] == ts[i];
      }
    } else {
      var before := PersistAll(identityEqual, es, front);
      var v := t.data;
      var slot := FirstMatch(x => identityEqual(x, v), Values(before));
      if slot < |before| {
        assert PersistAll(identityEqual, es, ts)[slot] == t;
      } else {
        assert PersistAll(identityEqual, es, ts)[|before|] == t;
      }
    }
  }

  /** Persisting two staged entities of one identity keeps only the later:
      with durable `d`, a staged `x1` of its identity and a later staged `x2`
      of the identity of `x1`, the durable collection ends as `[x2]`, so
      whatever was changed on `x1` alone is not kept. This happens when a
      `FindOne` clone stops matching its predicate and a second `FindOne`
      with that predicate stages another clone of the same durable entity. */
  lemma LaterStagedOverwrites<V>(identityEqual: (V, V) -> bool, d: Entity<V>, x1: Entity<V>, x2: Entity<V>)
    requires identityEqual(d.data, x1.data) && identityEqual(x1.data, x2.data)
    ensures PersistAll(identityEqual, [d], [x1, x2]) == [x2]
    ensures x1 != x2 ==> x1 !in PersistAll(identityEqual, [d], [x1, x2])
  {
    assert [x1, x2][..1] == [x1];
    assert [x1][..0] == [];
    var v1, v2 := x1.data, x2.data;
    assert Values([d]) == [d.data];
    assert FirstMatch(x => identityEqual(x, v1), Values([d])) == 0;
    assert PersistAll(identityEqual, [d], [x1]) == [x1];
    assert Values([x1]) == [x1.data];
    assert FirstMatch(x => identityEqual(x, v2), Values([x1])) == 0;
  }

  /** `Save` returns exactly the events recorded by the staged entities: every
      one of them, and nothing else. */
  lemma {:induction false} HarvestCollects<V>(ts: seq<Entity<V>>, e: Event)
    ensures e in Harvest(ts) <==> exists t :: t in ts && e in t.events
    decreases |ts|
  {
    if ts != [] {
      var front := ts[..|ts| - 1];
      var last := ts[|ts| - 1];
      HarvestCollects(front, e);
      if exists t :: t in ts && e in t.events {
        var t :| t in ts && e in t.events;
        if t != last {
          assert t in front;
        }
      }
    }
  }

  // ---------------------------------------------------------------------------
  // The repository
  // ---------------------------------------------------------------------------

  class Repository<V> {
    /** The durable collection. */
    var entities: seq<Entity<V>>
    /** Entities accessed or added since the last Save or Reset. */
    var transaction: seq<Entity<V>>
    const identityEqual: (V, V) -> bool
    const constraintEqual: (V, V) -> bool

    constructor (identityEqual: (V, V) -> bool, constraintEqual: (V, V) -> bool)
      ensures entities == [] && transaction == []
      ensures this.identityEqual == identityEqual && this.constraintEqual == constraintEqual
    {
      entities := [];
      transaction := [];
      this.identityEqual := identityEqual;
      this.constraintEqual := constraintEqual;
    }

    /** `Save` would fail on the current state. */
    ghost predicate Conflicted()
      reads this, (set e | e in entities)`data, (set t | t in transaction)`data
    {
      SaveConflict(identityEqual, constraintEqual, Values(entities), Values(transaction))
    }

    /** The durable collection a successful `Save` leaves. */
    ghost function Committed(): seq<Entity<V>>
      reads this, (set e | e in entities)`data, (set t | t in transaction)`data
    {
      PersistAll(identityEqual, entities, transaction)
    }

    /** The events a successful `Save` returns. */
    ghost function Harvested(): seq<Event>
      reads this, (set t | t in transaction)`events
    {
      Harvest(transaction)
    }

    /** What `Save` depends on is its collections, the values of their
        entities and the events of the staged ones. */
    twostate lemma SaveInputsFramed()
      requires entities == old(entities) && transaction == old(transaction)
      requires forall e :: e in entities ==> e.data == old(e.data)
      requires forall t :: t in transaction ==> t.data == old(t.data) && t.events == old(t.events)
      ensures Conflicted() == old(Conflicted())
      ensures Committed() == old(Committed())
      ensures Harvested() == old(Harvested())
    {
    }

    /** Stages `toAdd` unless it is constraint-equal to a durable or a staged entity. */
    method Add(toAdd: Entity<V>) returns (err: Option<RepoError>)
      modifies this`transaction
      ensures entities == old(entities)
      ensures err == None || err == Some(AlreadyExists)
      ensures err.Some? <==> exists e :: e in old(entities) + old(transaction) && constraintEqual(toAdd.data, e.data)
      ensures err.Some? ==> transaction == old(transaction)
      ensures err.None? ==> transaction == old(transaction) + [toAdd]
    {
      var all := entities + transaction;
      var i := 0;
      while i < |all|
        invariant 0 <= i <= |all|
        invariant forall j :: 0 <= j < i ==> !constraintEqual(toAdd.data, all[j].data)
      {
        if constraintEqual(toAdd.data, all[i].data) {
          return Some(AlreadyExists);
        }
        i := i + 1;
      }
      transaction := transaction + [toAdd];
      return None;
    }

    /** The first staged match itself; failing that, a fresh clone of the first
        durable match, which is staged; failing that, NotFound. */
    method FindOne(matchFn: V -> bool) returns (r: Result<Entity<V>, RepoError>)
      modifies this`transaction
      ensures entities == old(entities)
      ensures var s := FirstMatch(matchFn, Values(old(transaction)));
        s < |old(transaction)| ==> r == Ok(old(transaction)[s]) && transaction == old(transaction)
      ensures FirstMatch(matchFn, Values(old(transaction))) == |old(transaction)| ==>
        var d := FirstMatch(matchFn, Values(entities));
        if d < |entities| then
          && r.Ok? && fresh(r.value)
          && r.value.data == entities[d].data && r.value.events == entities[d].events
          && transaction == old(transaction) + [r.value]
        else
          r == Err(NotFound) && transaction == old(transaction)
    {
      hide Values, FirstMatch;
      var i := 0;
      while i < |transaction|
        invariant 0 <= i <= |transaction|
        invariant forall j :: 0 <= j < i ==> !matchFn(transaction[j].data)
      {
        if matchFn(transaction[i].data) {
          return Ok(transaction[i]);
        }
        i := i + 1;
      }
      i := 0;
      while i < |entities|
        invariant 0 <= i <= |entities|
        invariant forall j :: 0 <= j < i ==> !matchFn(entities[j].data)
      {
        if matchFn(entities[i].data) {
          var c := entities[i].Clone();
          transaction := transaction + [c];
          return Ok(c);
        }
        i := i + 1;
      }
      return Err(NotFound);
    }

    /** A second `FindOne` with the same predicate returns what the first
        returned: the staged instance, not another clone. */
    method FindOneTwice(matchFn: V -> bool) returns (first: Result<Entity<V>, RepoError>, second: Result<Entity<V>, RepoError>)
      modifies this`transaction
      ensures second == first
      ensures entities == old(entities)
      ensures first.Ok? ==> first.value in transaction
    {
      first := FindOne(matchFn);
      second := FindOne(matchFn);
    }

    /** The staged entities `matchFn` accepts, in staged order. */
    method StagedMatches(matchFn: V -> bool) returns (staged: seq<Entity<V>>)
      ensures staged == Pick(transaction, Matching(matchFn, Values(transaction)))
    {
      hide Values, Matching, Pick;
      ghost var tv := Values(transaction);
      StagedMatchStart(matchFn, transaction, tv);
      staged := [];
      var i := 0;
      while i < |transaction|
        invariant 0 <= i <= |transaction|
        invariant staged == Pick(transaction, Matching(matchFn, tv[..i]))
      {
        StagedMatchStep(matchFn, transaction, tv, i);
        assert tv[i] == transaction[i].data;
        if matchFn(transaction[i].data) {
          staged := staged + [transaction[i]];
        }
        i := i + 1;
      }
      assert tv[..i] == tv;
    }

    /** Whether some entity of `all`, whose values are `collected`, has a value
        identity-equal to `d`. */
    method ContainsIdentity(all: seq<Entity<V>>, ghost collected: seq<V>, d: V) returns (known: bool)
      requires |all| == |collected| && forall k :: 0 <= k < |all| ==> all[k].data == collected[k]
      ensures known == Seen(identityEqual, collected, d)
    {
      var i := 0;
      while i < |all|
        invariant 0 <= i <= |all|
        invariant forall k :: 0 <= k < i ==> !identityEqual(collected[k], d)
      {
        if identityEqual(all[i].data, d) {
          return true;
        }
        i := i + 1;
      }
      return false;
    }

    /** Whether `v` has an identity not among the staged matches `staged` and
        the clones `clones` made so far, whose values are `sv` and `cv`. */
    method IsNewIdentity(staged: seq<Entity<V>>, ghost sv: seq<V>, clones: seq<Entity<V>>, ghost cv: seq<V>, v: V) returns (isNew: bool)
      requires |staged| == |sv| && forall k :: 0 <= k < |staged| ==> staged[k].data == sv[k]
      requires |clones| == |cv| && forall k :: 0 <= k < |clones| ==> clones[k].data == cv[k]
      ensures isNew == !Seen(identityEqual, sv + cv, v)
    {
      var knownStaged := ContainsIdentity(staged, sv, v);
      var knownCloned := ContainsIdentity(clones, cv, v);
      SeenConcat(identityEqual, sv, cv, v);
      isNew := !(knownStaged || knownCloned);
    }

    /** The durable loop of `FindAll`: after the staged matches `staged`,
        whose values are `sv`, a fresh clone, also staged, of each matching
        durable entity whose identity was not already collected. */
    method CloneDurable(matchFn: V -> bool, staged: seq<Entity<V>>, ghost sv: seq<V>) returns (clones: seq<Entity<V>>)
      requires |staged| == |sv| && forall k :: 0 <= k < |staged| ==> staged[k].data == sv[k]
      modifies this`transaction
      ensures entities == old(entities)
      ensures CopiesAt(clones, entities, PicksFrom(matchFn, identityEqual, sv, Values(entities), 0))
      ensures forall c :: c in clones ==> fresh(c)
      ensures transaction == old(transaction) + clones
    {
      hide Values, PicksFrom, Seen;
      ghost var ev := Values(entities);
      clones := [];
      ghost var cv: seq<V> := [];
      ghost var picked: seq<nat> := [];
      var j := 0;
      assert sv + cv == sv;
      while j < |entities|
        invariant 0 <= j <= |entities|
        invariant entities == old(entities)
        invariant |clones| == |cv| == |picked|
        invariant forall k :: 0 <= k < |clones| ==> clones[k].data == cv[k]
        invariant transaction == old(transaction) + clones
        invariant PicksFrom(matchFn, identityEqual, sv, ev, 0) == picked + PicksFrom(matchFn, identityEqual, sv + cv, ev, j)
        invariant forall k :: 0 <= k < |picked| ==>
          picked[k] < j && fresh(clones[k]) && CopyOf(clones[k], entities[picked[k]])
      {
        var d := entities[j];
        var isNew := IsNewIdentity(staged, sv, clones, cv, d.data);
        PicksFromAdvance(matchFn, identityEqual, sv, cv, ev, picked, j);
        if matchFn(d.data) && isNew {
          var c := d.Clone();
          transaction := transaction + [c];
          clones := clones + [c];
          cv := cv + [c.data];
          picked := picked + [j];
        }
        j := j + 1;
      }
      PicksFromStep(matchFn, identityEqual, sv + cv, ev, j);
    }

    /** The positions of the staged entities `FindAll` returns first. */
    ghost function StagedPicks(matchFn: V -> bool, ts: seq<Entity<V>>): (idx: seq<nat>)
      reads (set t | t in ts)`data
      ensures forall k :: 0 <= k < |idx| ==> idx[k] < |ts|
    {
      Matching(matchFn, Values(ts))
    }

    /** The positions of the durable entities `FindAll` clones after the staged
        matches among `ts`. */
    ghost function ClonePicks(matchFn: V -> bool, ts: seq<Entity<V>>, es: seq<Entity<V>>): (idx: seq<nat>)
      reads (set t | t in ts)`data, (set e | e in es)`data
      ensures forall k :: 0 <= k < |idx| ==> idx[k] < |es|
    {
      PicksFrom(matchFn, identityEqual, Pick(Values(ts), StagedPicks(matchFn, ts)), Values(es), 0)
    }

    /** Every staged match in order, then a fresh clone, also staged, of each
        matching durable entity whose identity was not already collected. */
    method FindAll(matchFn: V -> bool) returns (all: seq<Entity<V>>)
      modifies this`transaction
      ensures entities == old(entities)
      ensures var n := |StagedPicks(matchFn, old(transaction))|;
        && n <= |all|
        && all[..n] == Pick(old(transaction), StagedPicks(matchFn, old(transaction)))
        && CopiesAt(all[n..], entities, ClonePicks(matchFn, old(transaction), entities))
        && (forall c :: c in all[n..] ==> fresh(c))
        && transaction == old(transaction) + all[n..]
    {
      ghost var tv := Values(transaction);
      ghost var m := Matching(matchFn, tv);
      ghost var sv := Pick(tv, m);
      var staged := StagedMatches(matchFn);
      assert Values(transaction) == tv;
      assert staged == Pick(old(transaction), m);
      var clones := CloneDurable(matchFn, staged, sv);
      all := staged + clones;
      assert all[..|staged|] == staged && all[|staged|..] == clones;
      assert Values(old(transaction)) == tv;
      assert StagedPicks(matchFn, old(transaction)) == m;
    }

    /** The `persist` step of `Save`: `toSave` replaces the first durable entity
        identity-equal to it, or is appended. */
    method Persist(toSave: Entity<V>)
      modifies this`entities
      ensures entities == PersistOne(identityEqual, old(entities), toSave)
    {
      var v := toSave.data;
      ghost var ev := Values(entities);
      var idx := 0;
      while idx < |entities|
        invariant 0 <= idx <= |entities|
        invariant entities == old(entities)
        invariant forall j :: 0 <= j < idx ==> !identityEqual(ev[j], v)
      {
        if identityEqual(entities[idx].data, v) {
          entities := entities[idx := toSave];
          return;
        }
        idx := idx + 1;
      }
      entities := entities + [toSave];
    }

    /** Whether some durable entity conflicts with the staged value `v`. */
    method ConflictsWithDurable(v: V) returns (conflict: bool)
      ensures conflict == ConflictsWith(identityEqual, constraintEqual, Values(entities), v)
    {
      ghost var ev := Values(entities);
      var j := 0;
      while j < |entities|
        invariant 0 <= j <= |entities|
        invariant forall j' :: 0 <= j' < j ==> identityEqual(ev[j'], v) || !constraintEqual(ev[j'], v)
      {
        if identityEqual(entities[j].data, v) {
          j := j + 1;
          continue;
        }
        if constraintEqual(entities[j].data, v) {
          return true;
        }
        j := j + 1;
      }
      return false;
    }

    /** The validation pass of `Save`: whether some staged entity conflicts
        with some durable one. Nothing is changed. */
    method FindConflict() returns (conflict: bool)
      ensures conflict == SaveConflict(identityEqual, constraintEqual, Values(entities), Values(transaction))
    {
      ghost var tv := Values(transaction);
      var i := 0;
      while i < |transaction|
        invariant 0 <= i <= |transaction|
        invariant forall i' :: 0 <= i' < i ==> !ConflictsWith(identityEqual, constraintEqual, Values(entities), tv[i'])
      {
        conflict := ConflictsWithDurable(transaction[i].data);
        if conflict {
          return;
        }
        i := i + 1;
      }
      return false;
    }

    /** Checks every staged entity against every durable one first, and fails
        with nothing changed on a conflict; otherwise persists the staged
        entities in order, collects and resets their events, and empties the
        transaction. */
    method Save() returns (events: seq<Event>, err: Option<RepoError>)
      modifies this`entities, this`transaction, (set t | t in transaction)`events
      ensures err == None || err == Some(AlreadyExists)
      ensures old(transaction) == [] ==> err.None? && events == [] && entities == old(entities)
      ensures err.Some? <==> old(Conflicted())
      ensures err.Some? ==>
        && events == [] && entities == old(entities) && transaction == old(transaction)
        && forall t :: t in old(transaction) ==> t.events == old(t.events)
      ensures err.None? ==>
        && entities == old(Committed())
        && events == old(Harvested())
        && transaction == []
        && forall t :: t in old(transaction) ==> t.events == []
    {
      hide Values, FirstMatch, ConflictsWith, PersistOne;
      var conflict := FindConflict();
      if conflict {
        return [], Some(AlreadyExists);
      }
      events := PersistStaged();
      transaction := [];
      err := None;
    }

    /** The second pass of `Save`: persists the staged entities in order and
        collects and resets their events. */
    method PersistStaged() returns (events: seq<Event>)
      modifies this`entities, (set t | t in transaction)`events
      ensures transaction == old(transaction)
      ensures entities == old(PersistAll(identityEqual, entities, transaction))
      ensures events == old(Harvest(transaction))
      ensures forall t :: t in transaction ==> t.events == []
    {
      PersistAllSteps(identityEqual, entities, transaction);
      HarvestSteps(transaction);
      hide Values, FirstMatch, PersistOne, PersistAll, Harvest;
      var ts := transaction;
      events := [];
      var i := 0;
      while i < |ts|
        invariant 0 <= i <= |ts|
        invariant transaction == ts
        invariant entities == old(PersistAll(identityEqual, entities, ts[..i]))
        invariant events == old(Harvest(ts[..i]))
        invariant forall t :: t in ts[..i] ==> t.events == []
        invariant forall t :: t in ts && t !in ts[..i] ==> t.events == old(t.events)
      {
        assert ts[..i + 1][..i] == ts[..i];
        ghost var before := entities;
        Persist(ts[i]);
        assert entities == old(PersistOne(identityEqual, before, ts[i]));
        var got := ts[i].GetEvents();
        events := events + got;
        ts[i].ResetEvents();
        i := i + 1;
      }
      assert ts[..i] == ts;
    }

    /** Discards the staged entities. */
    method Reset()
      modifies this`transaction
      ensures transaction == []
      ensures entities == old(entities)
    {
      transaction := [];
    }
  }
}
