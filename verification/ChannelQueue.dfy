/**
 `runExclusive`: per socket, each job is chained onto the one submitted before it, whatever becomes of that one.
 The promise chain is taken apart into its steps: a job is submitted, starts, and finishes well or badly.
 */
module ChannelQueue {
  import opened Wrappers

  datatype State = Pending | Running | Succeeded | Failed

  /** A submitted job, chained onto `previous`: the tail of its channel at the time, if there was one. */
  datatype Job = Job(key: string, previous: Option<nat>, state: State)

  predicate Settled(job: Job) {
    job.state == Succeeded || job.state == Failed
  }

  /** The promise a job waits for has settled, well or badly: `previous.then(fn, fn)`. */
  predicate Released(jobs: seq<Job>, j: nat)
    requires j < |jobs|
  {
    match jobs[j].previous
    case None => true
    case Some(p) => p < |jobs| && Settled(jobs[p])
  }

  predicate Startable(jobs: seq<Job>, j: nat)
    requires j < |jobs|
  {
    jobs[j].state == Pending && Released(jobs, j)
  }

  /** Each job is chained onto the latest earlier one of its channel, and has not run ahead of it. */
  ghost predicate Chained(jobs: seq<Job>) {
    forall j :: 0 <= j < |jobs| ==>
      && LatestBefore(jobs, j, jobs[j].key, jobs[j].previous)
      && (jobs[j].state != Pending ==> Released(jobs, j))
  }

  ghost predicate LatestBefore(jobs: seq<Job>, j: nat, key: string, latest: Option<nat>)
    requires j <= |jobs|
  {
    match latest
    case None => forall i :: 0 <= i < j ==> jobs[i].key != key
    case Some(p) => p < j && jobs[p].key == key && forall i :: p < i < j ==> jobs[i].key != key
  }

  /** A released job may move on: nothing that was settled becomes unsettled. */
  lemma ChainedAfter(jobs: seq<Job>, id: nat, state: State)
    requires Chained(jobs) && id < |jobs| && Released(jobs, id)
    requires jobs[id].state == Pending || jobs[id].state == Running
    ensures Chained(jobs[id := jobs[id].(state := state)])
  {
    var after := jobs[id := jobs[id].(state := state)];
    forall j | 0 <= j < |after|
      ensures LatestBefore(after, j, after[j].key, after[j].previous) &&
        (after[j].state != Pending ==> Released(after, j))
    {
      assert LatestBefore(jobs, j, jobs[j].key, jobs[j].previous) && (jobs[j].state != Pending ==> Released(jobs, j));
    }
  }

  class Channels {
    var jobs: seq<Job>
    var tails: map<string, nat>

    ghost predicate Valid()
      reads this
    {
      && Chained(jobs)
      && forall key :: LatestBefore(jobs, |jobs|, key, if key in tails then Some(tails[key]) else None)
    }

    constructor ()
      ensures Valid() && jobs == []
    {
      jobs, tails := [], map[];
    }

    method Submit(key: string) returns (id: nat)
      requires Valid()
      modifies this
      ensures Valid()
      ensures id == old(|jobs|) && |jobs| == id + 1 && jobs[..id] == old(jobs)
      ensures jobs[id].key == key && jobs[id].state == Pending
      ensures tails == old(tails)[key := id]
    {
      var previous := if key in tails then Some(tails[key]) else None;
      id := |jobs|;
      jobs := jobs + [Job(key, previous, Pending)];
      tails := tails[key := id];
    }

    method Start(id: nat)
      requires Valid() && id < |jobs| && Startable(jobs, id)
      modifies this`jobs
      ensures Valid() && jobs == old(jobs)[id := old(jobs[id]).(state := Running)]
    {
      ChainedAfter(jobs, id, Running);
      jobs := jobs[id := jobs[id].(state := Running)];
    }

    method Finish(id: nat, ok: bool)
      requires Valid() && id < |jobs| && jobs[id].state == Running
      modifies this`jobs
      ensures Valid()
      ensures jobs == old(jobs)[id := old(jobs[id]).(state := if ok then Succeeded else Failed)]
    {
      ChainedAfter(jobs, id, if ok then Succeeded else Failed);
      jobs := jobs[id := jobs[id].(state := if ok then Succeeded else Failed)];
    }
  }

  /** A job that has started has all earlier jobs of its channel behind it. */
  lemma {:induction false} StartedAfterAllEarlier(jobs: seq<Job>, i: nat, j: nat)
    requires Chained(jobs) && i < j < |jobs| && jobs[i].key == jobs[j].key
    requires jobs[j].state != Pending
    ensures Settled(jobs[i])
    decreases j
  {
    assert LatestBefore(jobs, j, jobs[j].key, jobs[j].previous) && Released(jobs, j);
    var p := jobs[j].previous.value;
    if i < p {
      StartedAfterAllEarlier(jobs, i, p);
    }
  }

  /** At most one job of a channel runs, and a job only starts once every job submitted before it has settled. */
  lemma ExclusiveInOrder(jobs: seq<Job>, i: nat, j: nat)
    requires Chained(jobs) && i < j < |jobs| && jobs[i].key == jobs[j].key
    ensures !(jobs[i].state == Running && jobs[j].state == Running)
    ensures Startable(jobs, j) ==> Settled(jobs[i])
  {
    if jobs[j].state == Running {
      StartedAfterAllEarlier(jobs, i, j);
    }
    if Startable(jobs, j) {
      assert LatestBefore(jobs, j, jobs[j].key, jobs[j].previous);
      var p := jobs[j].previous.value;
      if i < p {
        StartedAfterAllEarlier(jobs, i, p);
      }
    }
  }

  /** No failure blocks a channel: while a job of it is unsettled, one of its jobs is running or may start. */
  lemma {:induction false} NeverBlocked(jobs: seq<Job>, j: nat) returns (k: nat)
    requires Chained(jobs) && j < |jobs| && !Settled(jobs[j])
    ensures k <= j && jobs[k].key == jobs[j].key && (jobs[k].state == Running || Startable(jobs, k))
    decreases j
  {
    assert LatestBefore(jobs, j, jobs[j].key, jobs[j].previous);
    if jobs[j].state == Running || Startable(jobs, j) {
      k := j;
    } else {
      k := NeverBlocked(jobs, jobs[j].previous.value);
    }
  }
}
