/** The bidirectional mapper of `mapper/mapper.go`: two maps kept exact
    inverses of each other, built from a flat list of alternating keys and
    values. */
module Mappers {
  import opened Wrappers

  /** One argument of `New`'s variadic `...any` list, seen through the two type
      assertions `New` applies to it: as a key (`.(From)`) and as a value
      (`.(To)`). When the two types coincide both views are present. */
  datatype Dyn<K, W> = Dyn(asKey: Option<K>, asValue: Option<W>)

  datatype MapperError =
    | OddNumberOfKeyValues
    | UnexpectedKeyType
    | KeyAlreadyExists
    | UnexpectedValueType
    | ValueAlreadyExists
    | NoMappingFound

  datatype Mapper<K, W> = Mapper(to: map<K, W>, from: map<W, K>)

  /** The two maps are exact inverses. */
  ghost predicate Inverse<K, W>(m: Mapper<K, W>)
  {
    && (forall k :: k in m.to ==> m.to[k] in m.from && m.from[m.to[k]] == k)
    && (forall v :: v in m.from ==> m.from[v] in m.to && m.to[m.from[v]] == v)
  }

  /** The loop of `New` from mapper `m` on, over the pairs still in `rest`. */
  function BuildFrom<K, W>(m: Mapper<K, W>, rest: seq<Dyn<K, W>>): Result<Mapper<K, W>, MapperError>
    requires |rest| % 2 == 0
    decreases |rest|
  {
    if rest == [] then Ok(m)
    else if rest[0].asKey.None? then Err(UnexpectedKeyType)
    else if rest[0].asKey.value in m.to then Err(KeyAlreadyExists)
    else if rest[1].asValue.None? then Err(UnexpectedValueType)
    else if rest[1].asValue.value in m.from then Err(ValueAlreadyExists)
    else
      var k, v := rest[0].asKey.value, rest[1].asValue.value;
      BuildFrom(Mapper(m.to[k := v], m.from[v := k]), rest[2..])
  }

  /** What `New` returns for its argument list. */
  function Build<K, W>(values: seq<Dyn<K, W>>): Result<Mapper<K, W>, MapperError>
  {
    if |values| % 2 == 1 then Err(OddNumberOfKeyValues) else BuildFrom(Mapper(map[], map[]), values)
  }

  method New<K, W>(values: seq<Dyn<K, W>>) returns (r: Result<Mapper<K, W>, MapperError>)
    ensures |values| % 2 == 1 ==> r == Err(OddNumberOfKeyValues)
    ensures r == Build(values)
  {
    var to: map<K, W> := map[];
    var from: map<W, K> := map[];
    if |values| % 2 == 1 {
      return Err(OddNumberOfKeyValues);
    }
    var rest := values;
    while |rest| != 0
      invariant |rest| % 2 == 0
      invariant Build(values) == BuildFrom(Mapper(to, from), rest)
      decreases |rest|
    {
      if rest[0].asKey.None? {
        return Err(UnexpectedKeyType);
      }
      var k := rest[0].asKey.value;
      if k in to {
        return Err(KeyAlreadyExists);
      }
      if rest[1].asValue.None? {
        return Err(UnexpectedValueType);
      }
      var v := rest[1].asValue.value;
      if v in from {
        return Err(ValueAlreadyExists);
      }
      to := to[k := v];
      from := from[v := k];
      rest := rest[2..];
    }
    return Ok(Mapper(to, from));
  }

  /** `MustNew`: the caller promises an argument list `New` accepts (where the
      source panics otherwise). */
  function MustNew<K, W>(values: seq<Dyn<K, W>>): (m: Mapper<K, W>)
    requires Build(values).Ok?
    ensures Inverse(m)
    ensures forall i :: 0 <= i < |values| / 2 ==> PairTyped(values, i) && PairOf(values, i) in m.to.Items
  {
    BuildOk(values);
    Build(values).value
  }

  // ---------------------------------------------------------------------------
  // What a successful New builds
  // ---------------------------------------------------------------------------

  /** The i-th pair is a key followed by a value. */
  predicate PairTyped<K, W>(values: seq<Dyn<K, W>>, i: nat)
  {
    2 * i + 1 < |values| && values[2 * i].asKey.Some? && values[2 * i + 1].asValue.Some?
  }

  /** The i-th key/value pair of the list. */
  function PairOf<K, W>(values: seq<Dyn<K, W>>, i: nat): (K, W)
    requires PairTyped(values, i)
  {
    (values[2 * i].asKey.value, values[2 * i + 1].asValue.value)
  }

  /** Every argument at an even position is a key and every one after it a value. */
  ghost predicate WellTyped<K, W>(values: seq<Dyn<K, W>>)
  {
    forall i :: 0 <= i < |values| / 2 ==> PairTyped(values, i)
  }

  /** No key and no value appears in two pairs. */
  ghost predicate DistinctPairs<K, W>(values: seq<Dyn<K, W>>)
    requires WellTyped(values)
  {
    forall i, j :: 0 <= i < j < |values| / 2 ==>
      PairOf(values, i).0 != PairOf(values, j).0 && PairOf(values, i).1 != PairOf(values, j).1
  }

  /** The pairs are distinct and none of their keys or values is already in `m`. */
  ghost predicate FreshPairs<K, W>(m: Mapper<K, W>, values: seq<Dyn<K, W>>)
    requires WellTyped(values)
  {
    && DistinctPairs(values)
    && forall i :: 0 <= i < |values| / 2 ==> PairOf(values, i).0 !in m.to && PairOf(values, i).1 !in m.from
  }

  /** Dropping the first pair shifts the pair numbering by one. */
  lemma TailPairs<K, W>(rest: seq<Dyn<K, W>>)
    requires |rest| >= 2
    ensures forall i: nat :: PairTyped(rest[2..], i) == PairTyped(rest, i + 1)
    ensures forall i: nat :: PairTyped(rest[2..], i) ==> PairOf(rest[2..], i) == PairOf(rest, i + 1)
  {
  }

  lemma {:induction false} BuildFromOkIff<K, W>(m: Mapper<K, W>, rest: seq<Dyn<K, W>>)
    requires |rest| % 2 == 0
    ensures BuildFrom(m, rest).Ok? <==> WellTyped(rest) && FreshPairs(m, rest)
    decreases |rest|
  {
    if rest != [] {
      var tail := rest[2..];
      TailPairs(rest);
      var first := PairTyped(rest, 0) && rest[0].asKey.value !in m.to && rest[1].asValue.value !in m.from;
      if first {
        var k, v := rest[0].asKey.value, rest[1].asValue.value;
        var m' := Mapper(m.to[k := v], m.from[v := k]);
        BuildFromOkIff(m', tail);
        if WellTyped(rest) && FreshPairs(m, rest) {
          assert WellTyped(tail);
          forall i | 0 <= i < |tail| / 2
            ensures PairOf(tail, i).0 !in m'.to && PairOf(tail, i).1 !in m'.from
          {
            assert PairOf(rest, 0).0 != PairOf(rest, i + 1).0;
          }
          forall i, j | 0 <= i < j < |tail| / 2
            ensures PairOf(tail, i).0 != PairOf(tail, j).0 && PairOf(tail, i).1 != PairOf(tail, j).1
          {
            assert PairOf(rest, i + 1).0 != PairOf(rest, j + 1).0;
          }
        }
        if WellTyped(tail) && FreshPairs(m', tail) {
          forall i | 0 <= i < |rest| / 2
            ensures PairTyped(rest, i)
          {
            if i > 0 {
              assert PairTyped(tail, i - 1);
            }
          }
          forall i, j | 0 <= i < j < |rest| / 2
            ensures PairOf(rest, i).0 != PairOf(rest, j).0 && PairOf(rest, i).1 != PairOf(rest, j).1
          {
            assert PairOf(rest, j) == PairOf(tail, j - 1);
            if i > 0 {
              assert PairOf(tail, i - 1).0 != PairOf(tail, j - 1).0;
            }
          }
          forall i | 0 <= i < |rest| / 2
            ensures PairOf(rest, i).0 !in m.to && PairOf(rest, i).1 !in m.from
          {
            if i > 0 {
              assert PairOf(rest, i) == PairOf(tail, i - 1);
            }
          }
        }
      } else {
        if WellTyped(rest) {
          assert PairTyped(rest, 0);
          assert PairOf(rest, 0).0 in m.to || PairOf(rest, 0).1 in m.from;
        }
      }
    }
  }

  lemma {:induction false} BuildFromContents<K, W>(m: Mapper<K, W>, rest: seq<Dyn<K, W>>)
    requires |rest| % 2 == 0
    requires Inverse(m)
    requires BuildFrom(m, rest).Ok?
    ensures Inverse(BuildFrom(m, rest).value)
    ensures forall k :: k in m.to ==> k in BuildFrom(m, rest).value.to && BuildFrom(m, rest).value.to[k] == m.to[k]
    ensures forall i :: 0 <= i < |rest| / 2 ==>
      PairTyped(rest, i) && PairOf(rest, i) in BuildFrom(m, rest).value.to.Items
    decreases |rest|
  {
    if rest != [] {
      var tail := rest[2..];
      TailPairs(rest);
      var k, v := rest[0].asKey.value, rest[1].asValue.value;
      var m' := Mapper(m.to[k := v], m.from[v := k]);
      assert Inverse(m');
      BuildFromContents(m', tail);
      var out := BuildFrom(m', tail).value;
      forall i | 0 <= i < |rest| / 2
        ensures PairTyped(rest, i) && PairOf(rest, i) in out.to.Items
      {
        if i > 0 {
          assert PairTyped(tail, i - 1);
        } else {
          assert k in m'.to && m'.to[k] == v;
        }
      }
    }
  }

  /** `New` succeeds exactly on an even-length, well-typed list with no key and
      no value repeated; then the two maps are inverses and `To(k) = v`,
      `From(v) = k` for every listed pair. */
  lemma BuildOk<K, W>(values: seq<Dyn<K, W>>)
    ensures Build(values).Ok? <==> |values| % 2 == 0 && WellTyped(values) && DistinctPairs(values)
    ensures Build(values).Ok? ==>
      var m := Build(values).value;
      && Inverse(m)
      && (forall i :: 0 <= i < |values| / 2 ==>
            PairTyped(values, i) && PairOf(values, i) in m.to.Items && (PairOf(values, i).1, PairOf(values, i).0) in m.from.Items)
  {
    if |values| % 2 == 0 {
      var empty: Mapper<K, W> := Mapper(map[], map[]);
      BuildFromOkIff(empty, values);
      if Build(values).Ok? {
        BuildFromContents(empty, values);
        var m := Build(values).value;
        forall i | 0 <= i < |values| / 2
          ensures (PairOf(values, i).1, PairOf(values, i).0) in m.from.Items
        {
          assert PairOf(values, i) in m.to.Items;
        }
      }
    }
  }

  /** Running the loop of `New` over two stretches of pairs is running it over
      the first and then, from the mapper that yields, over the second. */
  lemma {:induction false} BuildFromSplit<K, W>(m: Mapper<K, W>, front: seq<Dyn<K, W>>, back: seq<Dyn<K, W>>)
    requires |front| % 2 == 0 && |back| % 2 == 0
    requires BuildFrom(m, front).Ok?
    ensures BuildFrom(m, front + back) == BuildFrom(BuildFrom(m, front).value, back)
    decreases |front|
  {
    if front != [] {
      assert (front + back)[0] == front[0] && (front + back)[1] == front[1];
      assert (front + back)[2..] == front[2..] + back;
      var k, v := front[0].asKey.value, front[1].asValue.value;
      BuildFromSplit(Mapper(m.to[k := v], m.from[v := k]), front[2..], back);
    } else {
      assert front + back == back;
    }
  }

  /** Once the pairs before position 2j are accepted, `New`'s outcome is
      decided by pair j in this order: a key of the wrong type, a key already
      mapped, a value of the wrong type, a value already mapped; an accepted
      pair hands the rest of the list to the mapper extended by it. So a
      repeated key is reported whatever the argument after it is. */
  lemma PairChecksInOrder<K, W>(values: seq<Dyn<K, W>>, j: nat)
    requires |values| % 2 == 0 && 2 * j + 1 < |values|
    requires Build(values[..2 * j]).Ok?
    ensures var m := Build(values[..2 * j]).value;
      var key, value := values[2 * j].asKey, values[2 * j + 1].asValue;
      Build(values) ==
        if key.None? then Err(UnexpectedKeyType)
        else if key.value in m.to then Err(KeyAlreadyExists)
        else if value.None? then Err(UnexpectedValueType)
        else if value.value in m.from then Err(ValueAlreadyExists)
        else BuildFrom(Mapper(m.to[key.value := value.value], m.from[value.value := key.value]), values[2 * j + 2..])
  {
    assert values == values[..2 * j] + values[2 * j..];
    BuildFromSplit(Mapper(map[], map[]), values[..2 * j], values[2 * j..]);
    assert values[2 * j..][2..] == values[2 * j + 2..];
  }

  // ---------------------------------------------------------------------------
  // Lookups
  // ---------------------------------------------------------------------------

  /** The value mapped to `k`, or NoMappingFound when `k` has none. */
  function To<K, W>(m: Mapper<K, W>, k: K): (r: Result<W, MapperError>)
    ensures r.Ok? <==> k in m.to
    ensures r.Ok? ==> (k, r.value) in m.to.Items
    ensures r.Err? ==> r.error == NoMappingFound
  {
    if k in m.to then Ok(m.to[k]) else Err(NoMappingFound)
  }

  /** The value mapped to `k`, or `default` when `k` has none. */
  function ToWithDefault<K, W>(m: Mapper<K, W>, k: K, default: W): (w: W)
    ensures k in m.to ==> (k, w) in m.to.Items
    ensures k !in m.to ==> w == default
  {
    if k in m.to then m.to[k] else default
  }

  /** The key mapped to `v`, or NoMappingFound when `v` has none. */
  function From<K, W>(m: Mapper<K, W>, v: W): (r: Result<K, MapperError>)
    ensures r.Ok? <==> v in m.from
    ensures r.Ok? ==> (v, r.value) in m.from.Items
    ensures r.Err? ==> r.error == NoMappingFound
  {
    if v in m.from then Ok(m.from[v]) else Err(NoMappingFound)
  }

  /** The key mapped to `v`, or `default` when `v` has none. */
  function FromWithDefault<K, W>(m: Mapper<K, W>, v: W, default: K): (k: K)
    ensures v in m.from ==> (v, k) in m.from.Items
    ensures v !in m.from ==> k == default
  {
    if v in m.from then m.from[v] else default
  }

  /** To and From fail with NoMappingFound exactly off the map, and To is the
      inverse of From: each round trip gives back what it started from. */
  lemma RoundTrips<K, W>(m: Mapper<K, W>, k: K, v: W)
    requires Inverse(m)
    ensures To(m, k).Err? <==> k !in m.to
    ensures To(m, k).Err? ==> To(m, k).error == NoMappingFound
    ensures From(m, v).Err? <==> v !in m.from
    ensures From(m, v).Err? ==> From(m, v).error == NoMappingFound
    ensures To(m, k).Ok? ==> From(m, To(m, k).value) == Ok(k)
    ensures From(m, v).Ok? ==> To(m, From(m, v).value) == Ok(v)
  {
  }

  /** The *WithDefault lookups agree with To and From where those succeed and
      give the default where they fail. */
  lemma WithDefaultAgrees<K, W>(m: Mapper<K, W>, k: K, v: W, dk: K, dv: W)
    ensures ToWithDefault(m, k, dv) == (if To(m, k).Ok? then To(m, k).value else dv)
    ensures FromWithDefault(m, v, dk) == (if From(m, v).Ok? then From(m, v).value else dk)
  {
  }
}
