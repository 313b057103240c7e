/** Putting stalled webhook events back on their queue, whatever their jobs look like. */
module RecoveryWebhooks {

  datatype JobState = Waiting | Active | Delayed | Failed | Completed

  type Queue = map<string, JobState>

  /** Each recovered event ends up with one job that will run or is running; other jobs are left alone. */
  function Repaired(jobs: Queue, ids: seq<string>): Queue {
    map id | id in jobs.Keys + (set k | 0 <= k < |ids| :: ids[k]) ::
      if id in jobs && (id !in ids || (jobs[id] != Failed && jobs[id] != Completed)) then jobs[id] else Waiting
  }

  /** `after` holds the jobs of `before` and one new job for every other identifier. */
  ghost predicate Added(before: Queue, ids: seq<string>, after: Queue) {
    && (forall id :: id in after <==> id in before || id in ids)
    && (forall id :: id in after ==> after[id] == if id in before then before[id] else Waiting)
  }

  /** The middle step: of the first `ids`, failed jobs wait again and completed ones are removed. */
  ghost predicate Settled(added: Queue, ids: seq<string>, settled: Queue, spent: seq<string>) {
    && (forall id :: id in spent <==> id in ids && id in added && added[id] == Completed)
    && (forall id :: id in settled <==> id in added && id !in spent)
    && (forall id :: id in settled ==> settled[id] == if id in ids && added[id] == Failed then Waiting else added[id])
  }

  lemma RepairedByHand(
    before: Queue, ids: seq<string>, added: Queue, settled: Queue, spent: seq<string>, after: Queue)
    requires Added(before, ids, added) && Settled(added, ids, settled, spent) && Added(settled, spent, after)
    ensures after == Repaired(before, ids)
  {
    assert forall id :: id in spent ==> id in added;
    assert forall id :: id in after <==> id in before || id in ids;
  }

  class WebhookQueue {
    var jobs: Queue

    constructor (jobs: Queue)
      ensures this.jobs == jobs
    {
      this.jobs := jobs;
    }

    /** Adding a job under an id that exists changes nothing. */
    method AddWebhookJobs(ids: seq<string>)
      modifies this
      ensures Added(old(jobs), ids, jobs)
    {
      for i := 0 to |ids|
        invariant Added(old(jobs), ids[..i], jobs)
      {
        assert ids[..i + 1] == ids[..i] + [ids[i]];
        if ids[i] !in jobs { jobs := jobs[ids[i] := Waiting]; }
      }
      assert ids[..|ids|] == ids;
    }

    /** recoverWebhooks, for the distinct ids that requeueStalledWebhooks returned. */
    method RecoverWebhooks(ids: seq<string>) returns (recovered: nat)
      requires forall i, j :: 0 <= i < j < |ids| ==> ids[i] != ids[j]
      modifies this
      ensures jobs == Repaired(old(jobs), ids) && recovered == |ids|
    {
      if |ids| == 0 { return 0; }
      AddWebhookJobs(ids);
      ghost var added := jobs;
      var spent: seq<string> := [];
      for i := 0 to |ids|
        invariant Settled(added, ids[..i], jobs, spent)
      {
        assert ids[..i + 1] == ids[..i] + [ids[i]];
        assert ids[i] !in ids[..i];
        var state := jobs[ids[i]];
        if state == Failed {
          jobs := jobs[ids[i] := Waiting];
        } else if state == Completed {
          jobs := jobs - {ids[i]};
          spent := spent + [ids[i]];
        }
      }
      assert ids[..|ids|] == ids;
      ghost var settled := jobs;
      if |spent| > 0 { AddWebhookJobs(spent); }
      RepairedByHand(old(jobs), ids, added, settled, spent, jobs);
      recovered := |ids|;
    }
  }

  /** Repairing again changes nothing, and nothing is repaired that was on its way. */
  lemma RepairIsComplete(jobs: Queue, ids: seq<string>)
    ensures forall id :: id in ids ==>
              id in Repaired(jobs, ids) && Repaired(jobs, ids)[id] in {Waiting, Active, Delayed}
    ensures forall id :: id in ids && id in jobs && jobs[id] in {Waiting, Active, Delayed} ==>
              Repaired(jobs, ids)[id] == jobs[id]
    ensures forall id :: id in ids && (id !in jobs || jobs[id] in {Failed, Completed}) ==>
              id in Repaired(jobs, ids) && Repaired(jobs, ids)[id] == Waiting
    ensures forall id :: id !in ids ==> (id in Repaired(jobs, ids) <==> id in jobs)
    ensures forall id :: id !in ids && id in jobs ==> Repaired(jobs, ids)[id] == jobs[id]
    ensures Repaired(Repaired(jobs, ids), ids) == Repaired(jobs, ids)
  {
  }
}
