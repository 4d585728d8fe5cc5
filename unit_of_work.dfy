/** The in-memory unit of work: it resets its repositories, lets the caller
    stage changes, then saves the repositories in order, stopping at the first
    failure, and resets them again however it ends. */
module InmemUnitOfWork {
  import opened Wrappers
  import opened Messages
  import opened InmemRepository

  /** Why a unit of work failed: the caller's function reported an error, or
      a repository's `Save` did. */
  datatype TxError = FunctionFailed(message: string) | RepositoryFailed(cause: RepoError)

  /** No entity object occurs in both `a` and `b`. */
  predicate NoCommon<V>(a: seq<Entity<V>>, b: seq<Entity<V>>)
  {
    forall t :: t in a ==> t !in b
  }

  /** The concatenation of `ss` in order. */
  function Concat<T>(ss: seq<seq<T>>): seq<T>
  {
    if ss == [] then [] else Concat(ss[..|ss| - 1]) + ss[|ss| - 1]
  }

  class UnitOfWork<V> {
    const repos: seq<Repository<V>>

    constructor (repos: seq<Repository<V>>)
      ensures this.repos == repos
    {
      this.repos := repos;
    }

    /** No repository occurs twice and no entity object is staged in two
        repositories, so saving one repository leaves the others alone. */
    ghost predicate Separate()
      reads this, set r | r in repos
    {
      && (forall i, j :: 0 <= i < j < |repos| ==> repos[i] != repos[j])
      && (forall i, j :: 0 <= i < j < |repos| ==> NoCommon(repos[i].transaction, repos[j].transaction))
    }

    /** `resetRepos`: discards what every repository has staged. */
    method ResetRepos()
      modifies (set r | r in repos)`transaction
      ensures forall r :: r in repos ==> r.transaction == [] && r.entities == old(r.entities)
    {
      var i := 0;
      while i < |repos|
        invariant 0 <= i <= |repos|
        invariant forall j :: 0 <= j < i ==> repos[j].transaction == []
        invariant forall r :: r in repos ==> r.entities == old(r.entities)
      {
        repos[i].Reset();
        i := i + 1;
      }
    }

    /** What `Run` does once the caller's function has returned `fErr`: on an
        error, nothing is saved; otherwise the repositories are saved in
        order, the first failure ending the run with the earlier saves kept.
        Every repository is reset on every path. The ghost results say how
        many repositories were saved and what each of them returned. */
    method Commit(fErr: Option<string>) returns (events: seq<Event>, err: Option<TxError>, ghost saved: nat, ghost batches: seq<seq<Event>>)
      modifies (set r | r in repos)`entities, (set r | r in repos)`transaction
      modifies (set r, t | r in repos && t in r.transaction :: t)`events
      ensures forall r :: r in repos ==> r.transaction == []
      ensures err == None || err == Some(RepositoryFailed(AlreadyExists)) || (fErr.Some? && err == Some(FunctionFailed(fErr.value)))
      ensures err.Some? ==> events == []
      ensures fErr.Some? ==>
        && err == Some(FunctionFailed(fErr.value))
        && (forall r :: r in repos ==> r.entities == old(r.entities))
        && (forall r, t :: r in repos && t in old(r.transaction) ==> t.events == old(t.events))
      ensures saved <= |repos| && |batches| == saved
      ensures fErr.None? ==> (err.None? <==> saved == |repos|)
      ensures fErr.None? && old(Separate()) ==> forall j :: 0 <= j < saved ==>
        && !old(repos[j].Conflicted())
        && repos[j].entities == old(repos[j].Committed())
        && batches[j] == old(repos[j].Harvested())
        && forall t :: t in old(repos[j].transaction) ==> t.events == []
      ensures fErr.None? && old(Separate()) ==> saved < |repos| ==> old(repos[saved].Conflicted())
      ensures fErr.None? && old(Separate()) ==> forall j :: saved <= j < |repos| ==>
        && repos[j].entities == old(repos[j].entities)
        && forall t :: t in old(repos[j].transaction) ==> t.events == old(t.events)
      ensures fErr.None? && old(Separate()) ==> err.None? ==> events == Concat(batches)
    {
      if fErr.Some? {
        ResetRepos();
        return [], Some(FunctionFailed(fErr.value)), 0, [];
      }
      events, err, saved, batches := SaveInOrder();
      ResetRepos();
    }

    /** The save loop of `Run`: saves the repositories in order and stops at
        the first whose `Save` fails. */
    method SaveInOrder() returns (events: seq<Event>, err: Option<TxError>, ghost saved: nat, ghost batches: seq<seq<Event>>)
      modifies (set r | r in repos)`entities, (set r | r in repos)`transaction
      modifies (set r, t | r in repos && t in r.transaction :: t)`events
      ensures err == None || err == Some(RepositoryFailed(AlreadyExists))
      ensures err.Some? ==> events == []
      ensures saved <= |repos| && |batches| == saved
      ensures err.None? <==> saved == |repos|
      ensures old(Separate()) ==> forall j :: 0 <= j < saved ==>
        && !old(repos[j].Conflicted())
        && repos[j].entities == old(repos[j].Committed())
        && batches[j] == old(repos[j].Harvested())
        && repos[j].transaction == []
        && forall t :: t in old(repos[j].transaction) ==> t.events == []
      ensures old(Separate()) ==> saved < |repos| ==> old(repos[saved].Conflicted())
      ensures old(Separate()) ==> forall j :: saved <= j < |repos| ==>
        && repos[j].entities == old(repos[j].entities)
        && repos[j].transaction == old(repos[j].transaction)
        && forall t :: t in old(repos[j].transaction) ==> t.events == old(t.events)
      ensures old(Separate()) ==> err.None? ==> events == Concat(batches)
    {
      // The loop relies on what `Save` promises, never on how these
      // specification functions are defined.
      hide Repository.Conflicted, Repository.Committed, Repository.Harvested;
      ghost var separate := Separate();
      batches := [];
      events := [];
      err := None;
      var i := 0;
      while i < |repos|
        invariant 0 <= i <= |repos| && |batches| == i && err == None
        invariant forall j :: i <= j < |repos| ==>
          repos[j].transaction == old(repos[j].transaction) || repos[j].transaction == []
        invariant separate ==> forall j :: i <= j < |repos| ==>
          && repos[j].entities == old(repos[j].entities)
          && repos[j].transaction == old(repos[j].transaction)
          && forall t :: t in repos[j].transaction ==> t.events == old(t.events)
        invariant separate ==> forall j :: 0 <= j < i ==>
          && !old(repos[j].Conflicted())
          && repos[j].entities == old(repos[j].Committed())
          && batches[j] == old(repos[j].Harvested())
          && repos[j].transaction == []
          && forall t :: t in old(repos[j].transaction) ==> t.events == []
        invariant separate ==> events == Concat(batches)
      {
        if separate {
          repos[i].SaveInputsFramed();
          assert forall j :: 0 <= j < i ==> repos[j] != repos[i];
          assert forall j :: 0 <= j < i ==> NoCommon(old(repos[j].transaction), repos[i].transaction);
        }
        var returned, e := repos[i].Save();
        if e.Some? {
          err := Some(RepositoryFailed(AlreadyExists));
          break;
        }
        assert (batches + [returned])[..i] == batches;
        batches := batches + [returned];
        events := events + returned;
        i := i + 1;
      }
      saved := i;
      if err.Some? {
        events := [];
      }
    }
  }
}
