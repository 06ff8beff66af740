/**
 * The FreelanceEscrow contract as its test suite (test/Escrow.test.js) exercises it:
 * a job table, a bid list per job, the escrow held for each job, and the ether
 * balances of the accounts that call it. Amounts are in wei.
 */
module Escrow {
  import opened Wrappers

  /** An account, as the address the caller signs with. */
  type Address = string

  /** The job lifecycle; `Code` is the integer the contract reports in `jobs(id).status`. */
  datatype Status = Open | InProgress | Submitted | Approved | Disputed | Closed | Cancelled
  {
    function Code(): (r: nat)
      ensures r < 7
    {
      match this
      case Open => 0
      case InProgress => 1
      case Submitted => 2
      case Approved => 3
      case Disputed => 4
      case Closed => 5
      case Cancelled => 6
    }

    /** The statuses in which the job's budget sits in escrow. */
    predicate Funded()
    {
      this == InProgress || this == Submitted || this == Disputed
    }
  }

  /** Different states report different codes. */
  lemma CodeInjective(s: Status, t: Status)
    ensures s.Code() == t.Code() ==> s == t
  {
  }

  datatype Job = Job(
    jobId: nat,
    client: Address,
    freelancer: Option<Address>,
    title: string,
    budget: nat,
    specCid: string,
    submissionCid: string,
    status: Status,
    escrow: nat)

  /** A bid: who placed it and the deposit sent with it. */
  datatype Bid = Bid(bidder: Address, amount: nat, refunded: bool)

  /** What the contract still owes the bidder for one bid. */
  function Outstanding(b: Bid): nat
  {
    if b.refunded then 0 else b.amount
  }

  /** The deposits the contract still holds for a bid list. */
  function Deposits(bs: seq<Bid>): nat
  {
    if bs == [] then 0 else Deposits(bs[..|bs| - 1]) + Outstanding(bs[|bs| - 1])
  }

  /** The deposits the contract still holds for account `a` in a bid list. */
  function DepositsOf(bs: seq<Bid>, a: Address): nat
  {
    if bs == [] then 0
    else DepositsOf(bs[..|bs| - 1], a) + (if bs[|bs| - 1].bidder == a then Outstanding(bs[|bs| - 1]) else 0)
  }

  /** A deposit not yet refunded is part of what its bidder is owed. */
  lemma {:induction false} DepositsOfCovers(bs: seq<Bid>, k: nat)
    requires k < |bs|
    ensures DepositsOf(bs, bs[k].bidder) >= Outstanding(bs[k])
  {
    if k < |bs| - 1 {
      DepositsOfCovers(bs[..|bs| - 1], k);
    }
  }

  /** After every bid is marked refunded, nothing is owed on the list. */
  lemma {:induction false} DepositsAllRefunded(bs: seq<Bid>)
    requires forall k :: 0 <= k < |bs| ==> bs[k].refunded
    ensures Deposits(bs) == 0
  {
    if bs != [] {
      DepositsAllRefunded(bs[..|bs| - 1]);
    }
  }

  /** The value the contract holds on behalf of one job. */
  function Held(j: Job, bs: seq<Bid>): nat
  {
    j.escrow + Deposits(bs)
  }

  /** Ids 0..n-1 all have a job and a bid list. */
  predicate Indexed(jobs: map<nat, Job>, bids: map<nat, seq<Bid>>, n: nat)
  {
    forall i :: 0 <= i < n ==> i in jobs && i in bids
  }

  /** The value held for jobs 0..n-1 together. */
  function Holdings(jobs: map<nat, Job>, bids: map<nat, seq<Bid>>, n: nat): nat
    requires Indexed(jobs, bids, n)
  {
    if n == 0 then 0 else Holdings(jobs, bids, n - 1) + Held(jobs[n - 1], bids[n - 1])
  }

  /** Holdings depend only on jobs 0..n-1. */
  lemma {:induction false} HoldingsFrame(jobs: map<nat, Job>, bids: map<nat, seq<Bid>>,
                                         jobs': map<nat, Job>, bids': map<nat, seq<Bid>>, n: nat)
    requires Indexed(jobs, bids, n) && Indexed(jobs', bids', n)
    requires forall i :: 0 <= i < n ==> jobs'[i] == jobs[i] && bids'[i] == bids[i]
    ensures Holdings(jobs', bids', n) == Holdings(jobs, bids, n)
  {
    if n > 0 {
      HoldingsFrame(jobs, bids, jobs', bids', n - 1);
    }
  }

  /** Changing one job changes the holdings by exactly the change in what is held for it. */
  lemma {:induction false} HoldingsChange(jobs: map<nat, Job>, bids: map<nat, seq<Bid>>,
                                          jobs': map<nat, Job>, bids': map<nat, seq<Bid>>, n: nat, k: nat)
    requires Indexed(jobs, bids, n) && Indexed(jobs', bids', n)
    requires k < n
    requires forall i :: 0 <= i < n && i != k ==> jobs'[i] == jobs[i] && bids'[i] == bids[i]
    ensures Holdings(jobs', bids', n) + Held(jobs[k], bids[k]) == Holdings(jobs, bids, n) + Held(jobs'[k], bids'[k])
  {
    if k == n - 1 {
      HoldingsFrame(jobs, bids, jobs', bids', n - 1);
    } else {
      HoldingsChange(jobs, bids, jobs', bids', n - 1, k);
    }
  }

  /** The holdings cover what is held for any single job. */
  lemma {:induction false} HoldingsCover(jobs: map<nat, Job>, bids: map<nat, seq<Bid>>, n: nat, k: nat)
    requires Indexed(jobs, bids, n)
    requires k < n
    ensures Holdings(jobs, bids, n) >= Held(jobs[k], bids[k])
  {
    if k < n - 1 {
      HoldingsCover(jobs, bids, n - 1, k);
    }
  }

  /**
   * What every stored job satisfies: a positive budget, escrow equal to the budget
   * exactly while the job is funded and zero otherwise, a freelancer once one was
   * selected, never the Approved status, and bids refunded exactly when cancelled.
   */
  predicate WellFormed(j: Job, bs: seq<Bid>)
  {
    && j.budget > 0
    && j.escrow == (if j.status.Funded() then j.budget else 0)
    && (j.freelancer.None? <==> (j.status == Open || j.status == Cancelled))
    && j.status != Approved
    && (forall k :: 0 <= k < |bs| ==> bs[k].refunded == (j.status == Cancelled))
  }

  /** Every job 0..n-1 carries its own id and is well formed with its bids. */
  predicate AllWellFormed(jobs: map<nat, Job>, bids: map<nat, seq<Bid>>, n: nat)
    requires Indexed(jobs, bids, n)
  {
    n == 0 || (AllWellFormed(jobs, bids, n - 1) && jobs[n - 1].jobId == n - 1 && WellFormed(jobs[n - 1], bids[n - 1]))
  }

  /** What AllWellFormed says about one id. */
  lemma {:induction false} AllWellFormedAt(jobs: map<nat, Job>, bids: map<nat, seq<Bid>>, n: nat, k: nat)
    requires Indexed(jobs, bids, n) && AllWellFormed(jobs, bids, n)
    requires k < n
    ensures jobs[k].jobId == k && WellFormed(jobs[k], bids[k])
  {
    if k < n - 1 {
      AllWellFormedAt(jobs, bids, n - 1, k);
    }
  }

  /** Changing at most job k, into a well-formed job with id k, keeps every job well formed. */
  lemma {:induction false} AllWellFormedChange(jobs: map<nat, Job>, bids: map<nat, seq<Bid>>,
                                               jobs': map<nat, Job>, bids': map<nat, seq<Bid>>, n: nat, k: nat)
    requires Indexed(jobs, bids, n) && Indexed(jobs', bids', n)
    requires AllWellFormed(jobs, bids, n)
    requires forall i :: 0 <= i < n && i != k ==> jobs'[i] == jobs[i] && bids'[i] == bids[i]
    requires k < n ==> jobs'[k].jobId == k && WellFormed(jobs'[k], bids'[k])
    ensures AllWellFormed(jobs', bids', n)
  {
    if n > 0 {
      AllWellFormedChange(jobs, bids, jobs', bids', n - 1, k);
    }
  }

  /** The wallet balance of `a`; an account never seen holds nothing. */
  function BalanceIn(m: map<Address, nat>, a: Address): nat
  {
    if a in m then m[a] else 0
  }

  /**
   * The contract's state invariant: ids 0..n-1 are exactly the stored jobs, each job
   * is well formed, every id listed for an account is a job that account created, and
   * the contract's balance is exactly what it holds on behalf of its jobs.
   */
  predicate Consistent(jobs: map<nat, Job>, bids: map<nat, seq<Bid>>, jobsOf: map<Address, seq<nat>>,
                       n: nat, held: nat)
  {
    && jobs.Keys == bids.Keys
    && (forall i :: i in jobs ==> i < n)
    && Indexed(jobs, bids, n)
    && AllWellFormed(jobs, bids, n)
    && (forall a, k :: a in jobsOf && 0 <= k < |jobsOf[a]| ==>
          jobsOf[a][k] in jobs && jobs[jobsOf[a][k]].client == a)
    && held == Holdings(jobs, bids, n)
  }

  /** What the invariant says about one stored job. */
  lemma ConsistentAt(jobs: map<nat, Job>, bids: map<nat, seq<Bid>>, jobsOf: map<Address, seq<nat>>,
                     n: nat, held: nat, k: nat)
    requires Consistent(jobs, bids, jobsOf, n, held)
    requires k in jobs
    ensures k < n && k in bids && jobs[k].jobId == k && WellFormed(jobs[k], bids[k])
    ensures held >= Held(jobs[k], bids[k])
  {
    AllWellFormedAt(jobs, bids, n, k);
    HoldingsCover(jobs, bids, n, k);
  }

  /** Replacing one job by a well-formed successor, moving `held` by the change in what is held for it, keeps the invariant. */
  lemma UpdateConsistent(jobs: map<nat, Job>, bids: map<nat, seq<Bid>>, jobsOf: map<Address, seq<nat>>,
                         n: nat, held: nat, k: nat, j: Job, bs: seq<Bid>, held': nat)
    requires Consistent(jobs, bids, jobsOf, n, held)
    requires k in jobs
    requires j.jobId == k && j.client == jobs[k].client && WellFormed(j, bs)
    requires held' + Held(jobs[k], bids[k]) == held + Held(j, bs)
    ensures Consistent(jobs[k := j], bids[k := bs], jobsOf, n, held')
  {
    var jobs', bids' := jobs[k := j], bids[k := bs];
    ConsistentAt(jobs, bids, jobsOf, n, held, k);
    assert Indexed(jobs', bids', n);
    AllWellFormedChange(jobs, bids, jobs', bids', n, k);
    HoldingsChange(jobs, bids, jobs', bids', n, k);
    forall a, m | a in jobsOf && 0 <= m < |jobsOf[a]|
      ensures jobsOf[a][m] in jobs' && jobs'[jobsOf[a][m]].client == a
    {
    }
  }

  /** Replacing one job while its bids stay as they are keeps the invariant. */
  lemma UpdateJobConsistent(jobs: map<nat, Job>, bids: map<nat, seq<Bid>>, jobsOf: map<Address, seq<nat>>,
                            n: nat, held: nat, k: nat, j: Job, held': nat)
    requires Consistent(jobs, bids, jobsOf, n, held)
    requires k in jobs && k in bids
    requires j.jobId == k && j.client == jobs[k].client && WellFormed(j, bids[k])
    requires held' + jobs[k].escrow == held + j.escrow
    ensures Consistent(jobs[k := j], bids, jobsOf, n, held')
  {
    UpdateConsistent(jobs, bids, jobsOf, n, held, k, j, bids[k], held');
    assert bids[k := bids[k]] == bids;
  }

  /** A new unrefunded bid on an open job keeps it well formed and adds its deposit to what is held for it. */
  lemma BidAppended(j: Job, bs: seq<Bid>, b: Bid)
    requires WellFormed(j, bs) && j.status == Open && !b.refunded
    ensures WellFormed(j, bs + [b])
    ensures Held(j, bs + [b]) == Held(j, bs) + b.amount
  {
    var bs' := bs + [b];
    assert bs'[..|bs'| - 1] == bs;
    forall i | 0 <= i < |bs'| ensures !bs'[i].refunded {
      if i < |bs| {
        assert bs'[i] == bs[i];
      }
    }
  }

  /** Appending a bid to an open job, with its deposit added to `held`, keeps the invariant. */
  lemma AppendBidConsistent(jobs: map<nat, Job>, bids: map<nat, seq<Bid>>, jobsOf: map<Address, seq<nat>>,
                            n: nat, held: nat, k: nat, b: Bid)
    requires Consistent(jobs, bids, jobsOf, n, held)
    requires k in jobs && k in bids && jobs[k].status == Open && !b.refunded
    ensures Consistent(jobs, bids[k := bids[k] + [b]], jobsOf, n, held + b.amount)
  {
    ConsistentAt(jobs, bids, jobsOf, n, held, k);
    var bs := bids[k] + [b];
    BidAppended(jobs[k], bids[k], b);
    UpdateConsistent(jobs, bids, jobsOf, n, held, k, jobs[k], bs, held + b.amount);
    assert jobs[k := jobs[k]] == jobs;
  }

  /** Closing a funded job and paying out its escrow, which is its budget, keeps the invariant. */
  lemma ReleaseConsistent(jobs: map<nat, Job>, bids: map<nat, seq<Bid>>, jobsOf: map<Address, seq<nat>>,
                          n: nat, held: nat, k: nat)
    requires Consistent(jobs, bids, jobsOf, n, held)
    requires k in jobs && jobs[k].status.Funded()
    ensures jobs[k].escrow == jobs[k].budget && jobs[k].freelancer.Some?
    ensures jobs[k].budget <= held
    ensures Consistent(jobs[k := jobs[k].(status := Closed, escrow := 0)], bids, jobsOf, n, held - jobs[k].budget)
  {
    ConsistentAt(jobs, bids, jobsOf, n, held, k);
    var closed := jobs[k].(status := Closed, escrow := 0);
    assert WellFormed(closed, bids[k]);
    UpdateJobConsistent(jobs, bids, jobsOf, n, held, k, closed, held - jobs[k].budget);
  }

  /** Cancelling an open job, with every bid marked refunded and the deposits taken out of `held`, keeps the invariant. */
  lemma CancelConsistent(jobs: map<nat, Job>, bids: map<nat, seq<Bid>>, jobsOf: map<Address, seq<nat>>,
                         n: nat, held: nat, k: nat, marked: seq<Bid>)
    requires Consistent(jobs, bids, jobsOf, n, held)
    requires k in jobs && k in bids && jobs[k].status == Open
    requires |marked| == |bids[k]|
    requires forall i :: 0 <= i < |marked| ==> marked[i] == bids[k][i].(refunded := true)
    ensures Deposits(bids[k]) <= held
    ensures Consistent(jobs[k := jobs[k].(status := Cancelled)], bids[k := marked], jobsOf, n, held - Deposits(bids[k]))
  {
    ConsistentAt(jobs, bids, jobsOf, n, held, k);
    DepositsAllRefunded(marked);
    var job := jobs[k].(status := Cancelled);
    assert WellFormed(job, marked);
    UpdateConsistent(jobs, bids, jobsOf, n, held, k, job, marked, held - Deposits(bids[k]));
  }

  /** Appending a fresh open job with no bids keeps the invariant. */
  lemma AppendConsistent(jobs: map<nat, Job>, bids: map<nat, seq<Bid>>, jobsOf: map<Address, seq<nat>>,
                         n: nat, held: nat, j: Job, client: Address)
    requires Consistent(jobs, bids, jobsOf, n, held)
    requires j.jobId == n && j.client == client && j.status == Open && WellFormed(j, [])
    ensures Consistent(jobs[n := j], bids[n := []], jobsOf[client := (if client in jobsOf then jobsOf[client] else []) + [n]], n + 1, held)
  {
    var jobs', bids' := jobs[n := j], bids[n := []];
    var jobsOf' := jobsOf[client := (if client in jobsOf then jobsOf[client] else []) + [n]];
    assert Indexed(jobs', bids', n + 1);
    AllWellFormedChange(jobs, bids, jobs', bids', n, n);
    HoldingsFrame(jobs, bids, jobs', bids', n);
    forall a, m | a in jobsOf' && 0 <= m < |jobsOf'[a]|
      ensures jobsOf'[a][m] in jobs' && jobs'[jobsOf'[a][m]].client == a
    {
      if a == client && m == |jobsOf'[a]| - 1 {
      } else {
        assert jobsOf'[a][m] == jobsOf[a][m];
      }
    }
  }

  /**
   * The refund loop of `cancelJob`: each bid is marked refunded, and a deposit not yet
   * refunded goes back to its bidder's wallet.
   */
  method RefundAll(bs: seq<Bid>, wallets: map<Address, nat>)
    returns (marked: seq<Bid>, wallets': map<Address, nat>, paid: nat)
    ensures |marked| == |bs|
    ensures forall k :: 0 <= k < |bs| ==> marked[k] == bs[k].(refunded := true)
    ensures forall a :: BalanceIn(wallets', a) == BalanceIn(wallets, a) + DepositsOf(bs, a)
    ensures paid == Deposits(bs)
  {
    wallets', marked, paid := wallets, [], 0;
    var i := 0;
    while i < |bs|
      invariant 0 <= i <= |bs|
      invariant |marked| == i
      invariant forall k :: 0 <= k < i ==> marked[k] == bs[k].(refunded := true)
      invariant forall a :: BalanceIn(wallets', a) == BalanceIn(wallets, a) + DepositsOf(bs[..i], a)
      invariant paid == Deposits(bs[..i])
    {
      var b := bs[i];
      assert bs[..i + 1][..i] == bs[..i];
      if !b.refunded {
        wallets' := wallets'[b.bidder := BalanceIn(wallets', b.bidder) + b.amount];
        paid := paid + b.amount;
      }
      marked := marked + [b.(refunded := true)];
      i := i + 1;
    }
    assert bs[..|bs|] == bs;
  }

  class FreelanceEscrow {
    /** The deploying account, which resolves disputes. */
    const owner: Address
    var jobs: map<nat, Job>
    var bids: map<nat, seq<Bid>>
    var jobsOf: map<Address, seq<nat>>
    var nextJobId: nat
    /** The wallets of the accounts that call the contract. */
    var balances: map<Address, nat>
    /** The contract's own ether balance. */
    var held: nat

    ghost predicate Valid()
      reads this
    {
      Consistent(jobs, bids, jobsOf, nextJobId, held)
    }

    /** Deployment by `owner`, with the given wallets. */
    constructor (owner: Address, wallets: map<Address, nat>)
      ensures Valid()
      ensures this.owner == owner && balances == wallets && held == 0
      ensures jobs == map[] && bids == map[] && jobsOf == map[] && nextJobId == 0
    {
      this.owner := owner;
      jobs, bids, jobsOf, nextJobId := map[], map[], map[], 0;
      balances, held := wallets, 0;
    }

    /** `jobsOf(a)`: the ids of the jobs `a` created, oldest first. */
    function JobsOf(a: Address): (r: seq<nat>)
      reads this
      ensures Valid() ==> forall k :: 0 <= k < |r| ==> r[k] in jobs && jobs[r[k]].client == a
    {
      if a in jobsOf then jobsOf[a] else []
    }

    /** The wallet balance of `a`; an account that never held ether has zero. */
    function Balance(a: Address): nat
      reads this`balances
    {
      BalanceIn(balances, a)
    }

    /** `createJob(title, budget, specCid)` sent by `caller`. */
    method CreateJob(caller: Address, title: string, budget: nat, specCid: string) returns (id: nat)
      requires Valid()
      requires budget > 0
      modifies this
      ensures Valid()
      ensures id !in old(jobs)
      ensures jobs == old(jobs)[id := Job(id, caller, None, title, budget, specCid, "", Open, 0)]
      ensures bids == old(bids)[id := []]
      ensures jobsOf == old(jobsOf)[caller := old(JobsOf(caller)) + [id]]
      ensures balances == old(balances) && held == old(held)
    {
      id := nextJobId;
      var job := Job(id, caller, None, title, budget, specCid, "", Open, 0);
      AppendConsistent(jobs, bids, jobsOf, nextJobId, held, job, caller);
      jobs, bids := jobs[id := job], bids[id := []];
      jobsOf := jobsOf[caller := JobsOf(caller) + [id]];
      nextJobId := nextJobId + 1;
    }

    /** `placeBid(id, {value: deposit})` sent by `caller`. */
    method PlaceBid(caller: Address, id: nat, deposit: nat)
      requires Valid()
      requires id in jobs && jobs[id].status == Open
      requires Balance(caller) >= deposit
      modifies this
      ensures Valid()
      ensures bids == old(bids)[id := old(bids[id]) + [Bid(caller, deposit, false)]]
      ensures balances == old(balances)[caller := old(Balance(caller)) - deposit]
      ensures held == old(held) + deposit
      ensures jobs == old(jobs) && jobsOf == old(jobsOf) && nextJobId == old(nextJobId)
    {
      var bs := bids[id] + [Bid(caller, deposit, false)];
      AppendBidConsistent(jobs, bids, jobsOf, nextJobId, held, id, Bid(caller, deposit, false));
      bids := bids[id := bs];
      balances := balances[caller := Balance(caller) - deposit];
      held := held + deposit;
    }

    /** `selectFreelancer(id, freelancer, {value})` sent by the client; no bid is required. */
    method SelectFreelancer(caller: Address, id: nat, freelancer: Address, value: nat)
      requires Valid()
      requires id in jobs && jobs[id].status == Open
      requires caller == jobs[id].client
      requires value == jobs[id].budget
      requires Balance(caller) >= value
      modifies this
      ensures Valid()
      ensures jobs == old(jobs)[id := old(jobs[id]).(freelancer := Some(freelancer), status := InProgress, escrow := value)]
      ensures balances == old(balances)[caller := old(Balance(caller)) - value]
      ensures held == old(held) + value
      ensures bids == old(bids) && jobsOf == old(jobsOf) && nextJobId == old(nextJobId)
    {
      var job := jobs[id].(freelancer := Some(freelancer), status := InProgress, escrow := value);
      ConsistentAt(jobs, bids, jobsOf, nextJobId, held, id);
      UpdateJobConsistent(jobs, bids, jobsOf, nextJobId, held, id, job, held + value);
      jobs := jobs[id := job];
      balances := balances[caller := Balance(caller) - value];
      held := held + value;
    }

    /** `submitWork(id, submissionCid)` sent by the selected freelancer. */
    method SubmitWork(caller: Address, id: nat, submissionCid: string)
      requires Valid()
      requires id in jobs && jobs[id].status == InProgress
      requires jobs[id].freelancer == Some(caller)
      modifies this
      ensures Valid()
      ensures jobs == old(jobs)[id := old(jobs[id]).(submissionCid := submissionCid, status := Submitted)]
      ensures bids == old(bids) && jobsOf == old(jobsOf) && nextJobId == old(nextJobId)
      ensures balances == old(balances) && held == old(held)
    {
      var job := jobs[id].(submissionCid := submissionCid, status := Submitted);
      ConsistentAt(jobs, bids, jobsOf, nextJobId, held, id);
      UpdateJobConsistent(jobs, bids, jobsOf, nextJobId, held, id, job, held);
      jobs := jobs[id := job];
    }

    /** `approveWork(id)` sent by the client: the escrow goes to the freelancer and the job closes. */
    method ApproveWork(caller: Address, id: nat)
      requires Valid()
      requires id in jobs && jobs[id].status == Submitted
      requires caller == jobs[id].client
      modifies this
      ensures Valid()
      ensures old(jobs[id].freelancer).Some?
      ensures jobs == old(jobs)[id := old(jobs[id]).(status := Closed, escrow := 0)]
      ensures var f := old(jobs[id].freelancer).value;
              balances == old(balances)[f := old(Balance(f)) + old(jobs[id].budget)]
      ensures held == old(held) - old(jobs[id].budget)
      ensures bids == old(bids) && jobsOf == old(jobsOf) && nextJobId == old(nextJobId)
    {
      ConsistentAt(jobs, bids, jobsOf, nextJobId, held, id);
      var job := jobs[id];
      Pay(id, job.freelancer.value, job.(status := Closed, escrow := 0));
    }

    /** `raiseDispute(id)` sent by the client or the freelancer of a submitted job. */
    method RaiseDispute(caller: Address, id: nat)
      requires Valid()
      requires id in jobs && jobs[id].status == Submitted
      requires caller == jobs[id].client || jobs[id].freelancer == Some(caller)
      modifies this
      ensures Valid()
      ensures jobs == old(jobs)[id := old(jobs[id]).(status := Disputed)]
      ensures bids == old(bids) && jobsOf == old(jobsOf) && nextJobId == old(nextJobId)
      ensures balances == old(balances) && held == old(held)
    {
      var job := jobs[id].(status := Disputed);
      ConsistentAt(jobs, bids, jobsOf, nextJobId, held, id);
      UpdateJobConsistent(jobs, bids, jobsOf, nextJobId, held, id, job, held);
      jobs := jobs[id := job];
    }

    /**
     * `ownerResolveDispute(id, toFreelancer)` sent by the owner: the escrow goes to the
     * freelancer, or back to the client, and the job closes.
     */
    method OwnerResolveDispute(caller: Address, id: nat, toFreelancer: bool)
      requires Valid()
      requires caller == owner
      requires id in jobs && jobs[id].status == Disputed
      modifies this
      ensures Valid()
      ensures old(jobs[id].freelancer).Some?
      ensures jobs == old(jobs)[id := old(jobs[id]).(status := Closed, escrow := 0)]
      ensures var payee := if toFreelancer then old(jobs[id].freelancer).value else old(jobs[id].client);
              balances == old(balances)[payee := old(Balance(payee)) + old(jobs[id].budget)]
      ensures held == old(held) - old(jobs[id].budget)
      ensures bids == old(bids) && jobsOf == old(jobsOf) && nextJobId == old(nextJobId)
    {
      ConsistentAt(jobs, bids, jobsOf, nextJobId, held, id);
      var job := jobs[id];
      var payee := if toFreelancer then job.freelancer.value else job.client;
      Pay(id, payee, job.(status := Closed, escrow := 0));
    }

    /** Releases the escrow of a funded job to `payee`, storing `closed` as the job. */
    method Pay(id: nat, payee: Address, closed: Job)
      requires Valid()
      requires id in jobs && jobs[id].status.Funded()
      requires closed == jobs[id].(status := Closed, escrow := 0)
      modifies this
      ensures Valid()
      ensures jobs == old(jobs)[id := closed]
      ensures balances == old(balances)[payee := old(Balance(payee)) + old(jobs[id].budget)]
      ensures held == old(held) - old(jobs[id].budget)
      ensures bids == old(bids) && jobsOf == old(jobsOf) && nextJobId == old(nextJobId)
    {
      var amount := jobs[id].escrow;
      ReleaseConsistent(jobs, bids, jobsOf, nextJobId, held, id);
      jobs := jobs[id := closed];
      balances := balances[payee := Balance(payee) + amount];
      held := held - amount;
    }

    /** `cancelJob(id)` sent by the client of an open job: every deposit goes back to its bidder. */
    method CancelJob(caller: Address, id: nat)
      requires Valid()
      requires id in jobs && jobs[id].status == Open
      requires caller == jobs[id].client
      modifies this
      ensures Valid()
      ensures jobs == old(jobs)[id := old(jobs[id]).(status := Cancelled)]
      ensures id in bids && |bids[id]| == |old(bids[id])|
      ensures forall k :: 0 <= k < |bids[id]| ==> bids[id][k] == old(bids[id][k]).(refunded := true)
      ensures bids == old(bids)[id := bids[id]]
      ensures forall a :: Balance(a) == old(Balance(a)) + DepositsOf(old(bids[id]), a)
      ensures held == old(held) - Deposits(old(bids[id]))
      ensures jobsOf == old(jobsOf) && nextJobId == old(nextJobId)
    {
      var bs := bids[id];
      var marked, wallets, paid := RefundAll(bs, balances);
      CancelConsistent(jobs, bids, jobsOf, nextJobId, held, id, marked);
      var job := jobs[id].(status := Cancelled);
      jobs, bids := jobs[id := job], bids[id := marked];
      balances := wallets;
      held := held - paid;
    }
  }

  /** Every job's escrow is either nothing or exactly its budget. */
  lemma EscrowAllOrNothing(e: FreelanceEscrow, id: nat)
    requires e.Valid() && id in e.jobs
    ensures e.jobs[id].escrow == 0 || e.jobs[id].escrow == e.jobs[id].budget
  {
    ConsistentAt(e.jobs, e.bids, e.jobsOf, e.nextJobId, e.held, id);
  }

  /** The contract's balance covers the escrow and outstanding deposits of every job. */
  lemma Solvent(e: FreelanceEscrow, id: nat)
    requires e.Valid() && id in e.jobs
    ensures e.held >= e.jobs[id].escrow + Deposits(e.bids[id])
  {
    HoldingsCover(e.jobs, e.bids, e.nextJobId, id);
  }
}
