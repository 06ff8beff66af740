/**
 * The profile page's split of the jobs a user posted into the five lists it shows
 * (the loop in fetchJobs, frontend/src/pages/Profile.jsx).
 */
module Profile {
  import opened Wrappers
  import JobUtils
  import Seqs

  /** A posted job as `getJobsByIds` returns it; `status` is the raw contract code. */
  datatype PostedJob = PostedJob(jobId: nat, title: string, status: int)

  /** The five lists: open, assigned, pending, closed (shown as completed) and disputed. */
  datatype Bucket = OpenJobs | Assigned | Pending | Completed | DisputedJobs

  /** The if / else-if chain: the list a decoded status name goes to, if any. */
  function BucketOf(status: string): (r: Option<Bucket>)
    ensures r == Some(OpenJobs) <==> status == "Open"
    ensures r == Some(Assigned) <==> status == "In Progress"
    ensures r == Some(Pending) <==> status == "Submitted"
    ensures r == Some(Completed) <==> status == "Closed"
    ensures r == Some(DisputedJobs) <==> status == "Disputed"
    ensures r.None? <==> status !in {"Open", "In Progress", "Submitted", "Closed", "Disputed"}
  {
    if status == "Open" then Some(OpenJobs)
    else if status == "In Progress" then Some(Assigned)
    else if status == "Submitted" then Some(Pending)
    else if status == "Closed" then Some(Completed)
    else if status == "Disputed" then Some(DisputedJobs)
    else None
  }

  /** The list the page puts `job` in, if any. */
  function Placement(job: PostedJob): (r: Option<Bucket>)
    ensures r.Some? <==> job.status in {0, 1, 2, 4, 5}
  {
    BucketOf(JobUtils.GetStatus(job.status))
  }

  /** Each list is chosen by exactly one status code, and codes 3, 6 and unknown codes go nowhere. */
  lemma PlacementByCode(job: PostedJob)
    ensures Placement(job) == Some(OpenJobs) <==> job.status == 0
    ensures Placement(job) == Some(Assigned) <==> job.status == 1
    ensures Placement(job) == Some(Pending) <==> job.status == 2
    ensures Placement(job) == Some(DisputedJobs) <==> job.status == 4
    ensures Placement(job) == Some(Completed) <==> job.status == 5
    ensures Placement(job) == None <==> (job.status == 3 || job.status == 6 || job.status < 0 || job.status > 6)
  {
    JobUtils.GetStatusTable();
  }

  /** The decoded names that reach no list: `Approved`, `Cancelled` and `Unknown`. */
  lemma UnplacedNames(job: PostedJob)
    ensures Placement(job) == None <==> JobUtils.GetStatus(job.status) in {"Approved", "Cancelled", "Unknown"}
  {
  }

  /** The jobs of `jobs` that go to list `b`, in their order in `jobs`. */
  function Select(jobs: seq<PostedJob>, b: Bucket): (r: seq<PostedJob>)
    ensures |r| <= |jobs|
    ensures forall j :: j in r <==> j in jobs && Placement(j) == Some(b)
  {
    if jobs == [] then []
    else
      var last := jobs[|jobs| - 1];
      Select(jobs[..|jobs| - 1], b) + (if Placement(last) == Some(b) then [last] else [])
  }

  /** The jobs of `jobs` that go to no list. */
  function Unplaced(jobs: seq<PostedJob>): (r: seq<PostedJob>)
    ensures forall j :: j in r <==> j in jobs && Placement(j) == None
  {
    if jobs == [] then []
    else
      var last := jobs[|jobs| - 1];
      Unplaced(jobs[..|jobs| - 1]) + (if Placement(last) == None then [last] else [])
  }

  /** One more job extends each list by that job or by nothing. */
  lemma SelectStep(jobs: seq<PostedJob>, i: nat, b: Bucket)
    requires i < |jobs|
    ensures Select(jobs[..i + 1], b) == Select(jobs[..i], b) + (if Placement(jobs[i]) == Some(b) then [jobs[i]] else [])
  {
    assert jobs[..i + 1][..i] == jobs[..i];
  }

  /** Selecting from a concatenation selects from each part, in order: lists keep the page's order. */
  lemma {:induction false} SelectAppend(p: seq<PostedJob>, q: seq<PostedJob>, b: Bucket)
    ensures Select(p + q, b) == Select(p, b) + Select(q, b)
  {
    if q == [] {
      assert p + q == p;
    } else {
      var q', last := q[..|q| - 1], q[|q| - 1];
      assert (p + q)[..|p + q| - 1] == p + q' && (p + q)[|p + q| - 1] == last;
      SelectAppend(p, q', b);
      Seqs.AppendAssoc(Select(p, b), Select(q', b), if Placement(last) == Some(b) then [last] else []);
    }
  }

  /** No job is in two lists. */
  lemma ListsDisjoint(jobs: seq<PostedJob>, b: Bucket, c: Bucket, j: PostedJob)
    requires b != c
    ensures !(j in Select(jobs, b) && j in Select(jobs, c))
  {
  }

  /** The sum of the five list sizes, with the jobs that reach no list, is the number of posted jobs. */
  function PlacedCount(jobs: seq<PostedJob>): nat
  {
    |Select(jobs, OpenJobs)| + |Select(jobs, Assigned)| + |Select(jobs, Pending)|
      + |Select(jobs, Completed)| + |Select(jobs, DisputedJobs)|
  }

  lemma {:induction false} ListSizes(jobs: seq<PostedJob>)
    ensures PlacedCount(jobs) + |Unplaced(jobs)| == |jobs|
  {
    if jobs != [] {
      ListSizes(jobs[..|jobs| - 1]);
    }
  }

  /** The lists hold at most all posted jobs, and all of them exactly when none is Approved, Cancelled or Unknown. */
  lemma ListSizesBound(jobs: seq<PostedJob>)
    ensures PlacedCount(jobs) <= |jobs|
    ensures PlacedCount(jobs) == |jobs| <==> forall j :: j in jobs ==> Placement(j).Some?
  {
    ListSizes(jobs);
    if PlacedCount(jobs) != |jobs| {
      var j := Unplaced(jobs)[0];
      assert j in Unplaced(jobs);
    }
  }

  /**
   * The forEach of fetchJobs: five lists start empty and each job is pushed onto the
   * list of its decoded status, if any.
   */
  method FillLists(postedJobs: seq<PostedJob>)
    returns (openJobs: seq<PostedJob>, assignedJobs: seq<PostedJob>, pendingJobs: seq<PostedJob>,
             closedJobs: seq<PostedJob>, disputedJobs: seq<PostedJob>)
    ensures openJobs == Select(postedJobs, OpenJobs)
    ensures assignedJobs == Select(postedJobs, Assigned)
    ensures pendingJobs == Select(postedJobs, Pending)
    ensures closedJobs == Select(postedJobs, Completed)
    ensures disputedJobs == Select(postedJobs, DisputedJobs)
  {
    openJobs, assignedJobs, pendingJobs, closedJobs, disputedJobs := [], [], [], [], [];
    var i := 0;
    while i < |postedJobs|
      invariant 0 <= i <= |postedJobs|
      invariant openJobs == Select(postedJobs[..i], OpenJobs)
      invariant assignedJobs == Select(postedJobs[..i], Assigned)
      invariant pendingJobs == Select(postedJobs[..i], Pending)
      invariant closedJobs == Select(postedJobs[..i], Completed)
      invariant disputedJobs == Select(postedJobs[..i], DisputedJobs)
    {
      var job := postedJobs[i];
      SelectStep(postedJobs, i, OpenJobs);
      SelectStep(postedJobs, i, Assigned);
      SelectStep(postedJobs, i, Pending);
      SelectStep(postedJobs, i, Completed);
      SelectStep(postedJobs, i, DisputedJobs);
      var status := JobUtils.GetStatus(job.status);
      if status == "Open" {
        openJobs := openJobs + [job];
      } else if status == "In Progress" {
        assignedJobs := assignedJobs + [job];
      } else if status == "Submitted" {
        pendingJobs := pendingJobs + [job];
      } else if status == "Closed" {
        closedJobs := closedJobs + [job];
      } else if status == "Disputed" {
        disputedJobs := disputedJobs + [job];
      }
      i := i + 1;
    }
    assert postedJobs[..i] == postedJobs;
  }
}
