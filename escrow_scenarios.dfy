/**
 * The cases of test/Escrow.test.js, each run against a freshly deployed contract.
 * Every method returns what its test inspects, and its postcondition is the
 * test's expectation, proved from the contracts of FreelanceEscrow alone.
 */
module EscrowScenarios {
  import opened Escrow
  import JobUtils

  /** "Client can create a job": one id is listed for the client; title and status 0 are stored. */
  method ClientCreatesJob(owner: Address, client: Address, wallets: map<Address, nat>, budget: nat)
    returns (ids: seq<nat>, title: string, status: nat)
    requires budget > 0
    ensures |ids| == 1
    ensures title == "Logo Design"
    ensures status == 0
  {
    var escrow := new FreelanceEscrow(owner, wallets);
    var _ := escrow.CreateJob(client, "Logo Design", budget, "QmCID");
    ids := escrow.JobsOf(client);
    var job := escrow.jobs[ids[0]];
    title, status := job.title, job.status.Code();
  }

  /** "Freelancers can place bids with optional deposit": one bid, placed by the bidder. */
  method BidderPlacesBid(owner: Address, client: Address, bidder: Address, wallets: map<Address, nat>, deposit: nat)
    returns (bidCount: nat, firstBidder: Address)
    requires BalanceIn(wallets, bidder) >= deposit
    ensures bidCount == 1
    ensures firstBidder == bidder
  {
    var escrow := new FreelanceEscrow(owner, wallets);
    var id := escrow.CreateJob(client, "Site", 1_000_000_000_000_000_000, "CID");
    escrow.PlaceBid(bidder, id, deposit);
    var bids := escrow.bids[id];
    bidCount, firstBidder := |bids|, bids[0].bidder;
  }

  /** "Client selects freelancer & locks budget": status 1 and escrow equal to the budget. */
  method ClientSelectsFreelancer(owner: Address, client: Address, freelancer: Address,
                                 wallets: map<Address, nat>, budget: nat)
    returns (status: nat, escrowed: nat)
    requires budget > 0
    requires BalanceIn(wallets, client) >= budget
    ensures status == 1
    ensures escrowed == budget
  {
    var escrow := new FreelanceEscrow(owner, wallets);
    var id := escrow.CreateJob(client, "API", budget, "CID");
    escrow.SelectFreelancer(client, id, freelancer, budget);
    status, escrowed := escrow.jobs[id].status.Code(), escrow.jobs[id].escrow;
  }

  /**
   * "Workflow: submit, approve, payout": the freelancer gains exactly the budget and
   * the job ends in status 5. The client's payment equals the payout, and the contract
   * ends holding what it held before.
   */
  method SubmitApprovePayout(owner: Address, client: Address, freelancer: Address,
                             wallets: map<Address, nat>, budget: nat)
    returns (gained: int, spent: int, status: nat, heldBefore: nat, heldAfter: nat)
    requires budget > 0
    requires client != freelancer
    requires BalanceIn(wallets, client) >= budget
    ensures gained == budget && spent == budget
    ensures status == 5
    ensures heldAfter == heldBefore
  {
    var escrow := new FreelanceEscrow(owner, wallets);
    var id := escrow.CreateJob(client, "Doc", budget, "CID");
    heldBefore := escrow.held;
    var clientBefore := escrow.Balance(client);
    escrow.SelectFreelancer(client, id, freelancer, budget);
    escrow.SubmitWork(freelancer, id, "QmWork");
    var balBefore := escrow.Balance(freelancer);
    escrow.ApproveWork(client, id);
    var balAfter := escrow.Balance(freelancer);
    gained, spent := balAfter - balBefore, clientBefore - escrow.Balance(client);
    status, heldAfter := escrow.jobs[id].status.Code(), escrow.held;
  }

  /** "Client can cancel an open job and refund bidder deposits": the bidder's balance rises, status 6. */
  method CancelRefundsDeposit(owner: Address, client: Address, bidder: Address,
                              wallets: map<Address, nat>, budget: nat, deposit: nat)
    returns (balBefore: nat, balAfter: nat, status: nat)
    requires budget > 0 && deposit > 0
    requires BalanceIn(wallets, bidder) >= deposit
    ensures balAfter > balBefore
    ensures balAfter == balBefore + deposit
    ensures status == 6
  {
    var escrow := new FreelanceEscrow(owner, wallets);
    var id := escrow.CreateJob(client, "Cancel Test", budget, "CID");
    escrow.PlaceBid(bidder, id, deposit);
    assert escrow.bids[id] == [Bid(bidder, deposit, false)];
    assert DepositsOf(escrow.bids[id], bidder) == deposit by {
      assert escrow.bids[id][..0] == [];
    }
    balBefore := escrow.Balance(bidder);
    escrow.CancelJob(client, id);
    balAfter := escrow.Balance(bidder);
    status := escrow.jobs[id].status.Code();
  }

  /**
   * "Owner can resolve disputes": status 4 after the client's dispute; resolving for the
   * freelancer pays exactly the budget and closes the job (status 5).
   */
  method OwnerResolvesDispute(owner: Address, client: Address, freelancer: Address,
                              wallets: map<Address, nat>, budget: nat)
    returns (disputedStatus: nat, gained: int, status: nat, heldBefore: nat, heldAfter: nat)
    requires budget > 0
    requires client != freelancer
    requires BalanceIn(wallets, client) >= budget
    ensures disputedStatus == 4
    ensures gained == budget
    ensures status == 5
    ensures heldAfter == heldBefore
  {
    var escrow := new FreelanceEscrow(owner, wallets);
    var id := escrow.CreateJob(client, "Dispute", budget, "CID");
    heldBefore := escrow.held;
    escrow.SelectFreelancer(client, id, freelancer, budget);
    escrow.SubmitWork(freelancer, id, "QmWork");
    escrow.RaiseDispute(client, id);
    disputedStatus := escrow.jobs[id].status.Code();
    var balBefore := escrow.Balance(freelancer);
    escrow.OwnerResolveDispute(owner, id, true);
    gained := escrow.Balance(freelancer) - balBefore;
    status, heldAfter := escrow.jobs[id].status.Code(), escrow.held;
  }

  /** The codes the tests expect decode to the lifecycle names the frontend shows. */
  lemma StatusCodesMatchDecoder()
    ensures JobUtils.GetStatus(Open.Code()) == "Open"
    ensures JobUtils.GetStatus(InProgress.Code()) == "In Progress"
    ensures JobUtils.GetStatus(Submitted.Code()) == "Submitted"
    ensures JobUtils.GetStatus(Approved.Code()) == "Approved"
    ensures JobUtils.GetStatus(Disputed.Code()) == "Disputed"
    ensures JobUtils.GetStatus(Closed.Code()) == "Closed"
    ensures JobUtils.GetStatus(Cancelled.Code()) == "Cancelled"
  {
    JobUtils.GetStatusTable();
  }

  /** Different lifecycle states are shown under different names, and none as 'Unknown'. */
  lemma StatusNamesDistinct(s: Status, t: Status)
    ensures JobUtils.GetStatus(s.Code()) != "Unknown"
    ensures s != t ==> JobUtils.GetStatus(s.Code()) != JobUtils.GetStatus(t.Code())
  {
    if s != t {
      JobUtils.GetStatusInjective(s.Code(), t.Code());
    }
  }
}
