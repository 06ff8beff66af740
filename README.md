# BlockHire escrow: a Dafny model

BlockHire is a freelance job marketplace built on an escrow contract. A client creates a
job with a budget. Bidders place bids with deposits. The client selects a freelancer and
pays exactly the budget into escrow. The freelancer submits work. The client then either
approves it, which pays the freelancer, or a dispute is raised and the contract owner
resolves it. A client may instead cancel an open job, which refunds the deposits.

The contract's own source is not part of this model; its behaviour is taken from its test
suite, `test/Escrow.test.js`. The model has four parts:

- `Escrow` (escrow.dfy): the contract as a class `FreelanceEscrow`. It holds the job table,
  a bid list per job, the job ids of each client, the wallets of the calling accounts
  and the contract's own balance `held`. Each contract call is a method that changes these
  fields. The invariant `Valid()` requires the following:
  - The stored ids are exactly 0..n-1, each with a bid list, and each job carries its own id.
  - Every budget is positive.
  - A job's escrow is its budget while the job is InProgress, Submitted or Disputed, and zero otherwise.
  - A job has a freelancer exactly when it is neither Open nor Cancelled.
  - No job is ever `Approved`.
  - A job's bids are marked refunded exactly when it is Cancelled. This holds because `refundBid` is left out.
  - Every id listed for an account is a job that account created.
  - `held` equals the sum of all escrows and unrefunded deposits.
- `EscrowScenarios` (escrow_scenarios.dfy): one method per test case. Each deploys a fresh
  contract, makes the test's calls and returns what the test inspects. Each
  postcondition is that test's expectation, proved from the class contracts alone.
- `JobUtils` (job_utils.dfy): the frontend decoder `getStatus` from status codes to names.
- `Profile` (profile.dfy) and `BidList` (bid_list.dfy): the profile page's split of posted
  jobs into five status lists, and the bid list's "own bid first, then the others" view.
- `Wrappers` (wrappers.dfy) and `Seqs` (seqs.dfy): an `Option` type and the associativity
  of sequence concatenation. Both are shared by the modules above.

Calls are modelled by their caller's address as an explicit parameter. Amounts are natural
numbers of wei. Only transfers made by the contract move wallet balances, so gas is not
modelled.

## Model

| member | source | states |
|---|---|---|
| `JobUtils.GetStatus` | frontend/src/utils/jobUtils.js:1-11 | The result is always one of eight names. It is 'Unknown' exactly when the code is outside 0..6. Otherwise it is the code's entry in the name table, since no name in the table is falsy. |
| `JobUtils.GetStatusTable` | frontend/src/utils/jobUtils.js:2-10 | Codes 0..6 decode, in order, to Open, In Progress, Submitted, Approved, Disputed, Closed, Cancelled. |
| `JobUtils.GetStatusInjective` | frontend/src/utils/jobUtils.js:2-10 | Two different valid codes never decode to the same name. |
| `Escrow.Status.Code` | test/Escrow.test.js:36 | The integer a job's status reports is below 7. It is Open 0, InProgress 1, Submitted 2, Approved 3, Disputed 4, Closed 5 and Cancelled 6, the values the tests compare with at lines 36, 71, 94, 119 and 135. |
| `Escrow.CodeInjective` | test/Escrow.test.js:36 | Different states report different codes. |
| `Escrow.FreelanceEscrow.JobsOf` | test/Escrow.test.js:32-36 | In every reachable state, each id that the `jobsOf(a)` getter lists is a stored job whose client is `a`. |
| `Escrow.FreelanceEscrow.constructor` | test/Escrow.test.js:13-20 | A fresh deployment has no jobs, no bids and an empty balance, and it satisfies the invariant. |
| `Escrow.FreelanceEscrow.CreateJob` | test/Escrow.test.js:26-37 | A new id, not used before, is appended to the caller's job list, and no other account's list changes. The stored job has the given title and budget, status Open, no freelancer and no escrow. No money moves. |
| `Escrow.FreelanceEscrow.PlaceBid` | test/Escrow.test.js:43-55 | Exactly one bid is appended to the job's list. Its bidder is the caller and its amount is the deposit. The deposit moves from the caller's wallet to the contract. |
| `Escrow.FreelanceEscrow.SelectFreelancer` | test/Escrow.test.js:61-73 | When the client pays exactly the budget, an Open job becomes InProgress with that freelancer and escrow equal to the payment. The payment moves from the client to the contract. No prior bid is needed. |
| `Escrow.FreelanceEscrow.SubmitWork` | test/Escrow.test.js:85-87 | When the selected freelancer submits, the job records the submission and becomes Submitted. No money moves. |
| `Escrow.FreelanceEscrow.ApproveWork` | test/Escrow.test.js:89-95 | When the client approves, the freelancer's wallet grows by exactly the budget and the contract's balance shrinks by the same amount. The job becomes Closed with zero escrow, without passing through Approved. |
| `Escrow.FreelanceEscrow.CancelJob` | test/Escrow.test.js:101-120 | When the client cancels, an Open job becomes Cancelled and every bid is marked refunded. Each account's wallet grows by exactly its unrefunded deposits on that job, and the contract's balance shrinks by their total. |
| `Escrow.RefundAll` | test/Escrow.test.js:101-120 | The refund loop of cancellation marks every bid refunded and keeps each bid's other fields. Each account's wallet grows by exactly its unrefunded deposits in the list, and the total paid out is the sum of all unrefunded deposits. |
| `Escrow.FreelanceEscrow.RaiseDispute` | test/Escrow.test.js:133-135 | When the client or the freelancer raises a dispute, a Submitted job becomes Disputed. No money moves. |
| `Escrow.FreelanceEscrow.OwnerResolveDispute` | test/Escrow.test.js:137-142 | When the owner resolves a Disputed job, the payee's wallet grows by exactly the budget and the contract's balance shrinks by the same amount. The payee is the freelancer if the decision is `true`, else the client. The job becomes Closed with zero escrow. |
| `Escrow.EscrowAllOrNothing` | test/Escrow.test.js:72 | In every reachable state, a job's escrow is either zero or exactly its budget. |
| `Escrow.Solvent` | test/Escrow.test.js:93 | In every reachable state, the contract's balance covers each job's escrow plus its unrefunded deposits. |
| `Escrow.DepositsOfCovers` | test/Escrow.test.js:116 | The refund a bidder gets on cancellation is at least the deposit of each of their unrefunded bids. |
| `Escrow.UpdateConsistent` | test/Escrow.test.js:61-142 | The invariant survives any change to one job, if the new job is well formed and the contract's balance moves by exactly the change in what it holds for that job. |
| `Escrow.ReleaseConsistent` | test/Escrow.test.js:89-95 | A funded job holds exactly its budget in escrow and has a freelancer. The contract's balance covers that budget, and closing the job while paying the budget out keeps the invariant. |
| `Escrow.CancelConsistent` | test/Escrow.test.js:101-120 | The contract's balance covers an open job's deposits. Cancelling the job, marking its bids refunded and paying the deposits out keeps the invariant. |
| `Escrow.AppendConsistent` | test/Escrow.test.js:26-37 | The invariant survives adding a new open job with no bids under the next id, listed for its client. |
| `EscrowScenarios.ClientCreatesJob` | test/Escrow.test.js:26-37 | After one createJob, the client has exactly one job id. That job has title "Logo Design" and status 0. |
| `EscrowScenarios.BidderPlacesBid` | test/Escrow.test.js:43-55 | After one placeBid, the job has exactly one bid and its bidder is the caller. |
| `EscrowScenarios.ClientSelectsFreelancer` | test/Escrow.test.js:61-73 | After selectFreelancer with value = budget, the status is 1 and the escrow equals the budget. |
| `EscrowScenarios.SubmitApprovePayout` | test/Escrow.test.js:79-95 | After select, submit and approve, the freelancer gains exactly the budget, the client pays exactly the budget, and the status is 5. The contract ends holding what it held before selection, so no value is made or lost. |
| `EscrowScenarios.CancelRefundsDeposit` | test/Escrow.test.js:101-120 | After a bid with a positive deposit and then cancellation, the bidder's balance is higher by exactly the deposit, and the status is 6. |
| `EscrowScenarios.OwnerResolvesDispute` | test/Escrow.test.js:126-143 | A dispute gives status 4. Resolving it in the freelancer's favour pays them exactly the budget and gives status 5. The contract ends holding what it held before selection. |
| `EscrowScenarios.StatusCodesMatchDecoder` | frontend/src/utils/jobUtils.js:2-10 | The codes the tests expect (0 Open, 1 InProgress, 4 Disputed, 5 Closed, 6 Cancelled), and 2 and 3, decode to the matching frontend names. |
| `EscrowScenarios.StatusNamesDistinct` | frontend/src/utils/jobUtils.js:2-11 | No lifecycle state decodes to 'Unknown', and different states decode to different names. |
| `Profile.BucketOf` | frontend/src/pages/Profile.jsx:86-90 | The decoded names 'Open', 'In Progress', 'Submitted', 'Closed' and 'Disputed' each go to their own list: open, assigned, pending, closed and disputed. Each list receives exactly its one name. Any other name goes to no list. |
| `Profile.Placement` | frontend/src/pages/Profile.jsx:84-90 | A posted job reaches some list exactly when its raw code is 0, 1, 2, 4 or 5. |
| `Profile.PlacementByCode` | frontend/src/pages/Profile.jsx:84-90 | A job goes to the open, assigned, pending, disputed or closed list exactly when its code is 0, 1, 2, 4 or 5 respectively. It goes to no list exactly when its code is 3, 6 or outside 0..6. |
| `Profile.UnplacedNames` | frontend/src/pages/Profile.jsx:83-91 | A job goes to no list exactly when its decoded status is Approved, Cancelled or Unknown. |
| `Profile.Select` | frontend/src/pages/Profile.jsx:83-91 | A job is in a list exactly when it is a posted job whose decoded status selects that list. No list is longer than the posted jobs. |
| `Profile.SelectAppend` | frontend/src/pages/Profile.jsx:83-91 | Each list's order follows the posted jobs' order. Selecting from a concatenation gives the selection from the first part, then from the second. |
| `Profile.ListsDisjoint` | frontend/src/pages/Profile.jsx:86-90 | No job is in two lists. |
| `Profile.ListSizes` | frontend/src/pages/Profile.jsx:76-91 | The five list sizes plus the number of jobs in no list add up to the number of posted jobs. |
| `Profile.ListSizesBound` | frontend/src/pages/Profile.jsx:76-91 | The five lists together hold at most the posted jobs. They hold all of them exactly when no job is Approved, Cancelled or Unknown. |
| `Profile.FillLists` | frontend/src/pages/Profile.jsx:76-101 | The loop starts from five empty lists, so nothing from an earlier run is kept. It pushes each job onto the list of its decoded status, and each output equals the filter of the posted jobs for that list. |
| `BidList.LowerChar` | frontend/src/components/BidList.jsx:13 | The result of one character's lower-casing is never an ASCII capital. A capital becomes the letter 32 code points above it, and every other character is kept. |
| `BidList.ToLower` | frontend/src/components/BidList.jsx:13 | The result has the input's length, and each character is lower-cased as LowerChar states. So it contains no ASCII capital, each capital becomes its lower-case letter, and every other character is kept. |
| `BidList.SameAddress` | frontend/src/components/BidList.jsx:13 | Every address matches itself. Between two addresses already in lower case, matching is plain equality. |
| `BidList.Mine` | frontend/src/components/BidList.jsx:41 | A bid placed by exactly the connected address is the account's own. Between lower-case spellings, a bid is the account's own exactly when the addresses are equal. |
| `BidList.ToLowerIdempotent` | frontend/src/components/BidList.jsx:13 | Lower-casing an address twice is the same as lower-casing it once. |
| `BidList.SameAddressIgnoresCase` | frontend/src/components/BidList.jsx:41 | An address matches its own lower-case spelling. Two addresses that differ only in letter case get the same match result. |
| `BidList.LastOwnBid` | frontend/src/components/BidList.jsx:12-16 | It finds the account's bid with no later bid by the same account, if there is one. It finds nothing exactly when the account has no bid. |
| `BidList.SelectUserBid` | frontend/src/components/BidList.jsx:11-17 | As written: the selected bid is the account's last bid. If the account has no bid, the value already in state is kept. |
| `BidList.OwnBid` | frontend/src/components/BidList.jsx:11-17 | Corrected: the own slot is filled exactly when the account has a bid. It always holds a bid of the account, namely the last one. |
| `BidList.Others` | frontend/src/components/BidList.jsx:40-41 | A bid is in the others list exactly when it is in the bid list and its bidder does not match the account. |
| `BidList.OwnAndOthers` | frontend/src/components/BidList.jsx:40-41 | The account's bids plus the others list add up to all the bids. |
| `BidList.OthersAppend` | frontend/src/components/BidList.jsx:40-41 | The others list keeps the original order. Filtering a concatenation gives the filter of the first part, then of the second. |
| `BidList.EarlierOwnBidHidden` | frontend/src/components/BidList.jsx:12-16 | Any bid of the account has a last own bid at or after it, and it is not in the others list. So earlier own bids are shown nowhere. |
| `BidList.Render` | frontend/src/components/BidList.jsx:19-53 | The view is 'No bids yet' exactly when the bid list is empty. Otherwise no bid in the others part belongs to the account. |
| `BidList.StaleUserBidAfterAccountSwitch` | frontend/src/components/BidList.jsx:11-17 | As written: when 0xA1's bid is in state and 0xB2 is connected, the own slot holds a bid that is not 0xB2's. That bid is also in the others list. |
| `BidList.OwnSlotNotRepeated` | frontend/src/components/BidList.jsx:29-41 | Corrected: when the own slot holds one of the account's bids, that bid is not also in the others list. |

## Left out

- The contract's error paths are not modelled. Its source is not part of this model, and which caller or payment it rejects, and with what error, is not visible. Operations therefore carry `requires` clauses for the happy paths the tests exercise: the right role, the right status, `budget > 0` at creation, `value == budget` at selection, and enough funds in the caller's wallet. The tests never create a job with a zero budget.
- `refundBid`, user registration, the user profile accumulators (`totalSpent`, `totalEarned`, `jobsCompleted`, and `jobsBidOn`, which `placeBid` records and the profile page reads at frontend/src/pages/Profile.jsx:71) and `listOpenJobs` / `getJobsByIds` are left out because the tests do not exercise them.
- Events (`JobCreated`, `BidPlaced`, …) are left out. The tests only check that they are emitted.
- Escrow.FreelanceEscrow.OwnerResolveDispute: the model assumes that a `false` decision pays the escrow back to the client. The tests only exercise `true`, so they do not show this.
- Escrow.FreelanceEscrow.RaiseDispute: the model also accepts the job's freelancer as caller. The only dispute the tests raise comes from the client (test/Escrow.test.js:134), so they do not show the freelancer's role.
- Escrow.FreelanceEscrow.CreateJob: the first id is 0 and ids go up by one. The tests only read ids back through `jobsOf`, so the real numbering is not confirmed.
- Escrow.FreelanceEscrow.CancelJob: the model assumes each bid carries a `refunded` flag, which cancellation sets, so a deposit is never refunded twice. The tests only show that the bidder's balance rises.
- Gas and wallet balance changes outside the contract are not modelled. The test at test/Escrow.test.js:116 ignores gas too.
- Ether unit conversion (`parseEther`, `formatEther`) is not modelled. Amounts are wei as natural numbers.
- BidList.ToLower: only ASCII letters are lower-cased. That is all a hexadecimal address contains, so full Unicode case mapping is not modelled.
- Profile.FillLists: a `null` `postedJobs`, which `?.forEach` skips, is not modelled. The input is always a sequence.
- The React state hooks, contract calls and IPFS fetches around the two page components, the wallet context, toasts, forms, routing and deployment scripts are not part of this model.

## Findings

| source | as written | input that shows it | evidently intended | confidence | as-written member | corrected member |
|---|---|---|---|---|---|---|
| frontend/src/components/BidList.jsx:11-17 | The effect only calls `setUserBid` when a bid matches. It never clears the state, so after the connected account changes, the previous account's bid stays in the own-bid slot. | State holds the bid of 0xA1. The connected account becomes 0xB2. The bids are `[bid of 0xA1]`. The own slot shows 0xA1's bid, and the others list shows it again. | Reset `userBid` to `null` before the scan, so the slot shows only the connected account's last bid. | medium; not executed | `BidList.SelectUserBid`, `BidList.StaleUserBidAfterAccountSwitch` | `BidList.OwnBid`, `BidList.OwnSlotNotRepeated` |
