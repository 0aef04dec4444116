# NFT marketplace: auction ledger and fixed-price escrow

A Dafny model of the two parts of the marketplace that hold users' money, with proofs of what they promise.

**Auctions.** Bids and withdrawals are signed rows of an append-only table. Grouped sums over these rows decide the
least acceptable bid, the leader, who may take money back and who is paid at the end, while `contract_ask.price`
caches the leading sum. `BidLedger` has the rows, their sums and the grouped queries; `AuctionMachine` is one auction
as a state machine whose moves are the service transactions; `AuctionPrice`, `AuctionMoney` and `AuctionTheorems`
prove what all its runs keep. `AuctionWorld` is the whole database with its many auctions and one closing worker,
`AuctionRefinement` shows that every auction in it evolves as a machine of its own, `AuctionClosing` carries the
theorems about closing to the tables, and `AuctionService` has the service methods over mutable tables, each proved
to take exactly the step of `AuctionWorld` that bears its name. `AuctionLaws` and `CloseLaws` say of each step, in terms
of rows and fields alone, when it is taken and what it writes.

**Fixed-price market.** `Contract` is the market contract as a transition function, `ContractInvariants` what its runs
keep, `ContractLaws` what each call asks of its caller and does to which balance, order and NFT, `MarketPlace` the same
calls over mutable storage. `EscrowIndex` derives the offers and trades from scanned
calls and `AskMirror` compares them with the contract's order book. `EscrowBooks` is the accounting: the contract, the
Unique daemon, the Kusama daemon and the `money_transfer` table as one machine whose steps are single statements and
single chain transactions, so that the daemons interleave freely and may crash between any two of them.
`EscrowAccounting` proves that no row moves money twice and that the KSM held is the contract's balances, the
commissions and everything under way; there a sale's debit that failed still counts as negative, and `EscrowSolvency`
says what that means for what the users have coming. `EscrowLaws` fixes whose account each row names and moves.
`BooksMirror` carries the mirror to these interleavings and restarts, `Rescans` and `SaleHistory` say when a sale is
recorded and paid out again. `EscrowTurns` and `EscrowDaemons` are the daemons' loops and methods over mutable tables.
`Scanning`, `ScanSessions` and `DepositScanning` are the walk over the blocks, `CollectionAddress` and `Commission`
the two small computations everything rests on, `Tables`, `Sums` and `Wrappers` what is shared.

Conventions. Accounts on either chain are one canonical identifier. A query that may answer in several ways (equal
totals in `ORDER BY 1 DESC`) and the outcome of a chain transaction are inputs of the step, never assumed. A rejected
request or a reverted call is a step that changes nothing, and the methods return its reason.

Several properties hold only under a condition; each such condition is proved to be the exact one, and where the
failing side is less than obvious a short run reaches it (`AuctionWitnesses`, `EscrowWitnesses`,
`AccountWitnesses`, and beside the theorems of the scan):

- The cached auction price agrees with the rows all through a run exactly when no withdrawal transfer fails that
  restores a sum above it (`AgreedThroughoutIff`). It never exceeds the leading sum in any case.
- At every point of a run, nobody can be overdrawn however everything in flight settles, exactly when no bidder
  starts a withdrawal while another one of theirs is in flight (`SolventThroughoutIff`).
- The price climbs by a step per accepted bid in all failure-free runs exactly when the start price is at least the
  step (`PriceClimbsIff`).
- A close pays out exactly the auction's money exactly when no loser's sum is negative (`CloseConserves`).
- Offers and order book stay in agreement exactly when each thing that happens meets a condition of its own
  (`MirroredThroughoutIff`): an edit or a sale for native coins, which the Unique daemon does not index, must change
  nothing that is shown; a call to another address than the market's, which the daemon decodes all the same, must
  concern a token without a live row; a call on a collection whose address merely ends in the four bytes of a managed
  id, which the daemon takes for that collection, must fit what the book shows for the managed one; a mass removal
  must remove nothing.
- A scanned sale closes the offer exactly when the administrator had not removed it (`SaleClosesRowIff`).
- Once all calls are behind the daemon, its offers are the open orders exactly when no row is left removed by the
  administrator (`CaughtUpTablesMirror`), provided that everything on the chain met its condition and that the daemon
  could do without the calls it passed over; the latter is exact for following the calls all through a run
  (`FollowsThroughoutIff`).
- The account balances all through a run exactly when nobody deposits or withdraws with escrow rights outside the
  daemon, no withdrawal is passed over, what a restart of the Unique daemon reads again equals what an interrupted sale
  still owed, and a restart of the Kusama daemon reads no deposit of worth again (`AccountBalancesIff`).
- Without crashes, the KSM held covers what the users have coming exactly when the debits of sales that failed do not
  exceed the commissions, and the commissions besides exactly when none failed (`MarketSolventIff`,
  `EarningsAreCoveredIff`). A debit fails, among others, when the seller empties the balance before the daemon comes to
  the sale.
- A sale is recorded as a trade at most once in a run exactly when no two readings of it find an offer that the
  readings before left (`RecordedOnceIff`); a payout follows each trade that no crash cuts off (`PaidOutOnceIff`). A
  restart that reads a range again after all of it was read in order adds no trade exactly when no sale of the range is
  preceded there, in a circle, by a listing of its token (`RescanRepeatsNoSaleIff`).
- The blocks of the Unique network that a daemon has scanned share a table with the blocks that the auction and mass
  sale services record when they send a token. Rows are extracted once exactly when every first visit to a block with
  rows finds it not recorded by another service and every later one finds it scanned (`RowsAreOnceIff`). Sessions and
  restarts make one pass over the chain exactly when no session starts with a recorded block beyond the end of what was
  extracted (in the mode `latest`: starts itself beyond it) and the daemon comes to no block there that another service
  recorded (`SessionsAreOnePassIff`).

The contract emits its event for `withdrawAllKSM` under another name than the daemon decodes it by
(blockchain/MarketPlace.sol:311 and src/escrow/unique.ts:234); both events have the same fields, so the amount that
arrives is the one emitted, and that is what the model says.

Verify everything with `dafny verify dfyconfig.toml`.

## Model

| member | source | states |
|---|---|---|
| BidLedger.AbsentIsZero | src/auction/services/helpers/database-helper.ts:141-154 | a bidder without a row of the given statuses has the sum 0 |
| BidLedger.TotalMark | src/auction/services/bid-placing.service.ts:83-86 | how settling one row moves the sum of each bidder under each status filter |
| BidLedger.GroupedBids | src/auction/services/helpers/database-helper.ts:109-139 | the loop that groups rows returns every bidder with a row once, with the bidder's sum, largest first |
| BidLedger.FirstGroup | src/auction/services/helpers/database-helper.ts:99-107 | the first grouped row is a bidder with the largest sum; there is none exactly when there is no row |
| BidLedger.GroupsPartitionRows | src/auction/services/helpers/database-helper.ts:115-139 | the groups add up to the sum over all rows: grouping loses and duplicates no row |
| BidLedger.FirstOfListing | src/auction/services/helpers/database-helper.ts:156-162 | the head of the full listing is a possible answer of the first-row query |
| AuctionMachine.ShapeKept | src/auction/services/closing/auction-closing.service.ts:91-140 | while a close runs, the sums it read stay the sums of the bidders it has not handled; after pick-up only withdrawals can be in flight |
| AuctionPrice.FailedTransferAgreesIff | src/auction/services/bid-withdraw.service.ts:105-115 | a failed withdrawal keeps price and rows in agreement iff the sum it restores does not exceed the price |
| AuctionPrice.FirstIsPendingTop | src/auction/services/closing/auction-closing.service.ts:95-98 | with nothing in flight the first finished sum is the largest pending sum |
| AuctionPrice.PriceKept | src/auction/services/bid-placing.service.ts:100-220 | every move keeps the price at most the largest pending sum and, during a close, at most the final price |
| AuctionPrice.AgreedKeptIff | src/auction/services/bid-withdraw.service.ts:84-116 | a move keeps price and rows in agreement iff it is not a withdrawal that fails and restores a sum above the price |
| AuctionPrice.PriceAtPickUp | src/auction/services/closing/auction-closing.service.ts:91-98 | at pick-up the price is at most the final price, and equal to it iff it agrees with the rows |
| AuctionPrice.GrowthKept | src/auction/services/bid-placing.service.ts:146-154 | every move keeps the growth bound of failure-free auctions that start at a step or more |
| AuctionMoney.ExposedIsWorst | src/auction/services/bid-withdraw.service.ts:128-134 | the sum that counts only finished rows and withdrawals in flight is the finished sum in the worst settlement of everything in flight |
| AuctionMoney.TakeBackCoversIff | src/auction/services/bid-withdraw.service.ts:119-176 | a withdrawal keeps all worst-case sums non-negative iff the bidder has no other withdrawal in flight |
| AuctionMoney.CoveredKept | src/auction/services/bid-withdraw.service.ts:67-116 | every other move keeps all worst-case sums non-negative |
| AuctionMoney.BalanceKept | src/auction/services/bid-withdraw.service.ts:150-159 | every move keeps the balance column equal to the bidder's running sum, for all three writers, while nothing has failed |
| AuctionMoney.PaymentsKept | src/auction/services/closing/auction-closing.service.ts:91-168 | every move, crashes included, keeps refunds and payout submitted at most once |
| AuctionMoney.CloseConserves | src/auction/services/closing/auction-closing.service.ts:91-168 | if all transfers of a close succeed, refunds, seller's share and market fee are all finished money iff no loser's sum is negative |
| AuctionMoney.CloseSettlesEveryone | src/auction/services/closing/auction-closing.service.ts:110-127 | after such a close the winner's finished sum is the final price and everybody else's is 0 |
| AuctionTheorems.AgreedThroughoutIff | src/auction/services/bid-placing.service.ts:100-220 | price and rows agree after every step of a run iff no withdrawal fails before pick-up that restores a sum above the price |
| AuctionTheorems.NoFailedTransferIsHarmless | src/auction/services/bid-withdraw.service.ts:105-115 | in particular in every run without a failed withdrawal |
| AuctionTheorems.CachedPriceFollowsRows | src/auction/services/bid-placing.service.ts:100-220 | in every run, until pick-up: price at most the largest pending sum; equal to it (start price without rows) if every failed withdrawal was harmless |
| AuctionTheorems.CoveredThroughoutIff | src/auction/services/bid-withdraw.service.ts:119-176 | no worst-case sum turns negative through a whole run iff withdrawals of one bidder never overlap |
| AuctionTheorems.CoveredIffSolventHoweverSettled | src/auction/services/bid-withdraw.service.ts:84-116 | worst-case sums are non-negative iff no way of settling what is in flight, in any order, makes a finished or pending sum negative |
| AuctionTheorems.SolventThroughoutIff | src/auction/services/bid-withdraw.service.ts:119-176 | at every point of a run, no settlement from there on overdraws anyone, iff withdrawals of one bidder never overlap |
| AuctionTheorems.BalancesRun | src/auction/services/bid-placing.service.ts:194-205 | in failure-free runs every balance column is the bidder's sum up to and including its row |
| AuctionTheorems.SmallRaise | src/auction/services/bid-placing.service.ts:182-210 | two accepted bids that leave the price where it started, whenever the start price is below the step |
| AuctionTheorems.PriceClimbsIff | src/auction/services/bid-placing.service.ts:182-210 | all failure-free runs satisfy price ≥ startPrice + (n − 1)·priceStep after n bids iff startPrice ≥ priceStep |
| AuctionTheorems.StoppedTakesNoRow | src/auction/services/helpers/database-helper.ts:33-53 | a stopped auction gets no row and no settled row changes until pick-up |
| AuctionTheorems.ReadyIsStable | src/auction/services/helpers/database-helper.ts:81-97 | stopped with nothing in flight is stable under every run without pick-up |
| AuctionTheorems.SettlementAgrees | src/auction/services/closing/auction-closing.service.ts:140-174 | at pick-up the final price is at least the cached price, and equal to it iff the price agrees with the rows, as after harmless failures; so payout and trade record share one base |
| AuctionTheorems.PaidAtMostOnce | src/auction/services/closing/auction-closing.service.ts:71-93 | over every run with crashes each loser is refunded and the seller paid at most once |
| AuctionTheorems.CloseBalances | src/auction/services/closing/auction-closing.service.ts:91-168 | conservation and settlement at close after any run whose withdrawals never overlapped |
| AuctionRefinement.EventIsMove | src/auction/services/bid-placing.service.ts:170-220 | every event of the database is one move or no move of each auction in it |
| AuctionRefinement.StepIsWellFormed | src/auction/services/auction-creation.service.ts:116-138 | every event keeps the references between the tables intact |
| AuctionRefinement.AuctionsAreMachines | src/auction/services/closing/auction-closing.service.ts:71-93 | in every reachable database each auction is exactly what its own machine makes of its own moves, however other auctions interleave |
| AuctionClosing.CloseIsRun | src/auction/services/closing/auction-closing.service.ts:91-227 | one call of processAuctionWithdraws is a sequence of events of the database |
| AuctionClosing.CloseRefines | src/auction/services/closing/auction-closing.service.ts:91-227 | and is the close of that one auction's machine, with or without bidders, paid or not |
| AuctionClosing.CloseLeavesOthers | src/auction/services/closing/auction-closing.service.ts:71-89 | closing one auction leaves every other one as it was |
| AuctionClosing.CloseLeavesOtherOffers | src/auction/services/closing/auction-closing.service.ts:71-89 | and its offer |
| AuctionClosing.CachedPriceInTables | src/auction/services/helpers/database-helper.ts:115-162 | the cached price of every auction in every reachable database: bounded, and equal after harmless failures |
| AuctionClosing.PaidOnceInTables | src/auction/services/closing/auction-closing.service.ts:71-93 | no refund or payout is submitted twice in any reachable database, crashes included |
| AuctionClosing.CloseBalancesInTables | src/auction/services/closing/auction-closing.service.ts:91-168 | conservation at close on the tables |
| AuctionClosing.TradeRecordsFinalPrice | src/auction/services/closing/auction-closing.service.ts:170-217 | the trade record splits the cached price; that is the amount the seller's share was computed from iff price and rows agreed, as after harmless failures |
| AuctionLaws.RowLifeCycle | src/auction/services/helpers/database-helper.ts:141-154 | a new row counts for its bidder's pending sum at once and for the finished sum when it lands; if it fails, for neither; nobody else's sums move |
| AuctionLaws.SettlingMoves | src/auction/services/bid-placing.service.ts:76-125 | the same for a row that settles after others were written |
| AuctionLaws.AcceptedIffGoal | src/auction/services/bid-placing.service.ts:146-192 | an amount is accepted iff it is a step or more once the price is, and takes the bidder's pending sum to the price plus a step; to the price itself if the bidder is there already or nobody has an unfailed bid at the start price |
| AuctionLaws.QuoteIsLeast | src/auction/services/bid-placing.service.ts:146-168 | pending sum and quoted minimum add up to exactly that goal: the quote is the least amount that reaches it |
| AuctionLaws.LocateIff | src/auction/services/helpers/database-helper.ts:33-53 | the lookup finds the auction of a token's active offer iff its status is asked for; otherwise it names what is missing |
| AuctionLaws.CreationOpensAuction | src/auction/services/auction-creation.service.ts:116-138 | offer and auction of a creation field by field, unless the token has an active or removed offer |
| AuctionLaws.BidRaisesPriceIff | src/auction/services/bid-placing.service.ts:182-214 | a bid on a token on auction is taken iff active and acceptable; it writes the row in flight and makes the bidder's new pending sum the price |
| AuctionLaws.BidRefusedIff | src/auction/services/bid-placing.service.ts:182-192 | which reason refuses a bid |
| AuctionLaws.WithdrawalNeedsLeaders | src/auction/services/bid-withdraw.service.ts:125-148 | a withdrawal needs finished money and somebody else at or above the bidder in both rankings; strictly below in both it is always allowed |
| AuctionLaws.WithdrawalTakesAll | src/auction/services/bid-withdraw.service.ts:150-161 | it takes back the whole finished sum: when it has landed the bidder's is 0 and nobody else's has changed |
| AuctionLaws.WithdrawalSparesLeader | src/auction/services/bid-withdraw.service.ts:143-148 | and the leader of the finished sums still leads, with the same sum |
| AuctionLaws.WithdrawalRefusedIff | src/auction/services/bid-withdraw.service.ts:131-148 | which reason refuses a withdrawal |
| AuctionLaws.WithdrawalAddsRow | src/auction/services/bid-withdraw.service.ts:150-161 | what an allowed one writes in the tables |
| AuctionLaws.FailedBidLowersPrice | src/auction/services/bid-placing.service.ts:100-125 | a failed bid leaves as price the largest pending sum that is left, or the start price |
| AuctionLaws.SettlingMarksRow | src/auction/services/bid-withdraw.service.ts:84-116 | every other outcome of a transfer marks its row and nothing else |
| AuctionLaws.CancelledForOwnerIff | src/auction/services/auction-canceling.service.ts:66-114 | an auction is cancelled iff active, for its seller, and while every bid has failed; what that writes |
| AuctionLaws.CancellationRefusedIff | src/auction/services/auction-canceling.service.ts:66-114 | which reason refuses a cancellation |
| AuctionLaws.DueAuctionsStop | src/auction/services/helpers/database-helper.ts:55-79 | an auction becomes stopped at the moment of the call iff it was active with its time up; every other row is unchanged |
| AuctionLaws.NobodyStopsEarly | src/auction/services/helpers/database-helper.ts:55-79 | no auction stops before its time, no due one stays active, and a second call changes nothing |
| AuctionLaws.ForcedStopIff | src/auction/services/closing/force-closing.service.ts:11-26 | a forced stop works iff the auction is created or active |
| AuctionLaws.MassCancelEndsTime | src/admin/services/mass-canceling.service.ts:83-108 | every active auction of another seller is due now and stops at the next look; no other row changes |
| AuctionLaws.ForeignCountIsSize | src/admin/services/mass-canceling.service.ts:83-108 | the number returned is the size of the set of these auctions |
| CloseLaws.RefundsAreDue | src/auction/services/closing/auction-closing.service.ts:110-127 | the loop submits one refund for each loser with a positive sum, of that sum, in order, and writes one settled row for each |
| CloseLaws.CloseSubmits | src/auction/services/closing/auction-closing.service.ts:91-168 | a close submits these refunds and then pays the auction's seller the winner's sum less the whole part of the commission's share |
| CloseLaws.CloseWritesOffer | src/auction/services/closing/auction-closing.service.ts:101-174 | what a close leaves of offer and auction, field by field, paid or not |
| CloseLaws.CloseRecordsSale | src/auction/services/closing/auction-closing.service.ts:176-217 | the trade of a paid close, field by field, its price the largest that fits the cached price with the commission on top |
| CloseLaws.CloseWithoutBids | src/auction/services/closing/auction-closing.service.ts:91-108 | without a finished bid offer and auction end and nobody is paid |
| CloseLaws.PickedUpWhenReady | src/auction/services/helpers/database-helper.ts:81-97 | only a stopped auction without a row in flight is picked up, by an idle worker |
| CloseLaws.PayoutsGoToCreators | src/auction/services/closing/auction-closing.service.ts:142-160 | in every reachable database an auction's seller is who created it and every payout has gone to the creator of its auction |
| CloseLaws.ClosePaysCreator | src/auction/services/closing/auction-closing.service.ts:140-160 | a close from any reachable database pays that creator what the largest finished sum leaves after the commission |
| CloseLaws.OneLiveOfferPerToken | src/migrations/Auction_Constraints_20220215000000.ts:15-23 | in every reachable database a token has at most one live offer |
| AuctionService.AuctionTables.CreateAskAndBroadcast | src/auction/services/auction-creation.service.ts:116-138 | a new active auction at its start price without rows; rejected when the token has a live offer |
| AuctionService.AuctionTables.CancelInDatabase | src/auction/services/auction-canceling.service.ts:66-114 | ends auction and offer for the owner if no bid is unfailed; otherwise which condition refused it |
| AuctionService.AuctionTables.GetCalculationInfo | src/auction/services/bid-placing.service.ts:127-168 | the quoted minimum is what the bidder's pending sum lacks to the goal of AcceptedIffGoal |
| AuctionService.AuctionTables.TryPlacePendingBid | src/auction/services/bid-placing.service.ts:170-220 | one PlaceBid step iff the amount meets the step and reaches the goal, or the reason it was refused |
| AuctionService.AuctionTables.HandleBidTxSuccess | src/auction/services/bid-placing.service.ts:76-98 | the row is finished and nothing else changes |
| AuctionService.AuctionTables.HandleBidTxFail | src/auction/services/bid-placing.service.ts:100-125 | the row fails and the price becomes the sum of the new pending leader, or the start price |
| AuctionService.AuctionTables.TryCreateWithdrawingBid | src/auction/services/bid-withdraw.service.ts:119-176 | one Withdraw step for a bidder who leads neither ranking, or the reason it was refused |
| AuctionService.AuctionTables.MakeWithdrawalTransfer | src/auction/services/bid-withdraw.service.ts:84-116 | the row is finished or failed as its transfer went |
| AuctionService.AuctionTables.WithdrawByMarket | src/auction/services/bid-withdraw.service.ts:67-82 | one settled refund row and one submitted transfer |
| AuctionService.AuctionTables.UpdateAuctionsAsStopped | src/auction/services/helpers/database-helper.ts:55-79 | a row becomes stopped now iff it was active with its time up, every other is unchanged; the answer names exactly the offers of these |
| AuctionService.AuctionTables.ForceCloseAuction | src/auction/services/closing/force-closing.service.ts:11-26 | stops a created or active auction, or the reason there is none |
| AuctionService.AuctionTables.MassAuctionCancel | src/admin/services/mass-canceling.service.ts:83-108 | every active auction of another seller is due now, nothing else changes, and their number is returned |
| AuctionService.AuctionTables.FindAuctionsReadyForWithdraw | src/auction/services/helpers/database-helper.ts:81-97 | lists, once each, exactly the stopped auctions without a row in flight |
| AuctionService.AuctionTables.RefundOthers | src/auction/services/closing/auction-closing.service.ts:110-127 | the loop refunds every loser with a positive sum, in order |
| AuctionService.AuctionTables.SendTokenAndPay | src/auction/services/closing/auction-closing.service.ts:149-217 | pays the seller the final price less the whole part of the commission's share, marks the offer bought and writes the trade; throws iff the offer then has no purchase block |
| AuctionService.AuctionTables.ProcessAuctionWithdraws | src/auction/services/closing/auction-closing.service.ts:91-227 | the whole close of one auction; throws iff there is a winner, the seller is paid and no purchase block is known |
| AuctionService.AuctionTables.AuctionsWithdrawingIntervalHandler | src/auction/services/closing/auction-closing.service.ts:71-89 | the closed auctions are the ready ones up to the first that throws, or all; no other changes; each is still ready when its turn comes |
| AuctionWitnesses.FailedWithdrawalOutgrowsPrice | src/auction/services/bid-withdraw.service.ts:105-115 | a run that ends with price 50 under a pending sum of 60 |
| AuctionWitnesses.OverlappingWithdrawalsOverdraw | src/auction/services/bid-withdraw.service.ts:119-176 | a run with two overlapping withdrawals that ends with a finished sum of −10 |
| AuctionWitnesses.OverdrawnCloseDoesNotBalance | src/auction/services/closing/auction-closing.service.ts:91-168 | closed after that run, the auction pays out and keeps more than it holds |
| Commission.PriceWithoutCommissionIsLargest | src/escrow/unique.ts:96-99 | n is at most the result iff n·(100 + c) ≤ 100·price |
| Commission.MarketFeeIsLargest | src/auction/services/closing/auction-closing.service.ts:143-144 | n is at most the fee of a price ≥ 0 iff 100·n ≤ price·c; of a negative price, at least iff 100·n ≥ price·c |
| Commission.MarkupRoundTrip | src/escrow/unique.ts:96-99 | marking a base up by the commission, rounded up, and taking the commission off again gives the base |
| Commission.RecordedPriceGap | src/auction/services/closing/auction-closing.service.ts:143-174 | both amounts by their own bounds, and how far they lie apart: seller's share ≤ recorded price + 1 and 100(100 + c)(recorded − share) ≤ price·c² |
| CollectionAddress.ByteOfId | src/utils/blockchain/web3.ts:57-60 | each shifted and truncated byte is the byte of the unsigned id, also where the shift is signed |
| CollectionAddress.AddressRoundTrip | src/utils/blockchain/web3.ts:38-63 | extracting from the address of an id gives the id for all 0 ≤ id < 2^32 − 1, whatever the checksum's letter case; other ids are refused |
| CollectionAddress.ExtractedIdIsFourBytes | src/utils/blockchain/util.ts:229-232 | texts of another length than 40 or 42 are refused; eight final digits yield a number of four bytes |
| ContractInvariants.CallKeeps | blockchain/MarketPlace.sol:161-318 | every call keeps order index, seller lists and custody |
| ContractInvariants.RunKeeps | blockchain/MarketPlace.sol:62-318 | so does every run, with NFTs minted and moved around the contract |
| ContractInvariants.OpenOrdersAreHeld | blockchain/MarketPlace.sol:161-286 | an open order is the newest of its NFT and the contract owns that NFT; no NFT has two open orders |
| ContractInvariants.AsksNameNewestOrder | blockchain/MarketPlace.sol:202-203 | asks names the greatest order id with that NFT, and 0 iff there is none |
| ContractInvariants.SellerListsPartitionOrders | blockchain/MarketPlace.sol:204 | the seller lists increase and hold exactly the ids of that seller's orders |
| ContractInvariants.BuyKSMConserves | blockchain/MarketPlace.sol:257-271 | a sale keeps the sum of all balances, also when buyer and seller are one |
| ContractInvariants.InflowIsSumChange | blockchain/MarketPlace.sol:251-318 | every call moves the sum of balances by exactly what it takes in or pays out |
| ContractInvariants.BalancesAreInflow | blockchain/MarketPlace.sol:251-318 | in every run the balances add up to deposits minus withdrawals |
| ContractLaws.ListingTakesNft | blockchain/MarketPlace.sol:161-207 | addAsk succeeds iff the sender holds the approved NFT; all it does, field by field |
| ContractLaws.EditRewritesOrder | blockchain/MarketPlace.sol:209-232 | editAsk succeeds iff the sender owns the open order; what it changes of it, and nothing else |
| ContractLaws.CancelReturnsNft | blockchain/MarketPlace.sol:235-248 | cancelAsk succeeds iff the sender owns the open order; it closes it and returns the NFT |
| ContractLaws.DepositCredits | blockchain/MarketPlace.sol:251-255 | depositKSM succeeds iff an escrow account calls it and the sum is a word; one balance rises |
| ContractLaws.SaleSucceedsIff | blockchain/MarketPlace.sol:257-271 | buyKSM succeeds iff an escrow account or the buyer calls it, the buyer has the price, the seller's sum is a word, and the contract holds the NFT |
| ContractLaws.SaleMovesPriceAndNft | blockchain/MarketPlace.sol:257-271 | it gives the NFT to the receiver, moves the price from buyer to seller and no other balance, and closes the order |
| ContractLaws.NativeSaleMovesNft | blockchain/MarketPlace.sol:272-286 | buy succeeds iff exactly the price is sent and the contract holds the NFT; the sender gets it |
| ContractLaws.WithdrawalEmpties | blockchain/MarketPlace.sol:306-312 | withdrawAllKSM succeeds iff an escrow account or the owner calls it; one balance becomes 0 |
| ContractLaws.WithdrawalDebits | blockchain/MarketPlace.sol:314-318 | withdrawKSM succeeds iff an escrow account calls it for what the balance holds; one balance falls |
| ContractLaws.OutsideMoves | blockchain/MarketPlace.sol:148-154 | minting, moving and the appointment of escrows change only what they name |
| ContractLaws.OnlyOwnersAndEscrowsLower | blockchain/MarketPlace.sol:251-318 | a balance falls only by a sale or a withdrawal that an escrow account or its owner calls |
| ContractLaws.HeldNftLeavesBySale | blockchain/MarketPlace.sol:161-286 | an NFT leaves the contract only to the seller of its open order, to the receiver of a sale whose price moved, or to who sent the price in native coins |
| MarketPlace.Storage.constructor | blockchain/MarketPlace.sol:62-75 | the placeholder order and no other state |
| MarketPlace.Storage.AddAsk | blockchain/MarketPlace.sol:161-207 | all effects of a listing, or a revert that changes nothing |
| MarketPlace.Storage.EditAsk | blockchain/MarketPlace.sol:209-232 | the owner edits an open order, zero price and currency meaning no change |
| MarketPlace.Storage.CancelAsk | blockchain/MarketPlace.sol:235-248 | succeeds iff the caller owns the open order: the contract can always give the NFT back |
| MarketPlace.CancelSucceedsIff | blockchain/MarketPlace.sol:235-248 | in every reachable state a cancellation goes through iff the caller owns the open order, so custody never blocks it |
| MarketPlace.Storage.DepositKSM | blockchain/MarketPlace.sol:251-255 | an escrow account raises one balance, or a revert |
| MarketPlace.Storage.BuyKSM | blockchain/MarketPlace.sol:257-271 | the NFT goes to the receiver, the price from buyer to seller, the order closes, for an escrow account or the buyer; or nothing happens |
| MarketPlace.Storage.MovePrice | blockchain/MarketPlace.sol:263-264 | takes the price from the buyer before it reaches the seller; succeeds iff neither word under- or overflows |
| MarketPlace.Storage.Buy | blockchain/MarketPlace.sol:272-286 | the sale for native coins, or a revert: order, NFT and coins; the coins go on to the seller iff the account takes them, and the result says so |
| MarketPlace.PassThroughConserves | blockchain/MarketPlace.sol:276-283 | in a native sale the price leaves the buyer for the seller, or for the contract if the seller's account refuses it; no coin is lost and no other account touched |
| MarketPlace.Storage.WithdrawAllKSM | blockchain/MarketPlace.sol:306-312 | empties one balance and returns what it held |
| MarketPlace.Storage.WithdrawKSM | blockchain/MarketPlace.sol:314-318 | lowers one balance, never below zero |
| EscrowIndex.IdRoundTrip | src/utils/blockchain/util.ts:229-232 | the id read from a collection's numeric address is its id |
| EscrowIndex.FindLive | src/escrow/service.ts:83-91 | finds a row that is active or removed by the administrator iff the token has one |
| EscrowIndex.CancelLeavesNone | src/escrow/service.ts:136-146 | a cancellation leaves the token without a live row, and every other token has one iff it had one |
| EscrowIndex.BoughtLeavesNoneIff | src/escrow/service.ts:159-169 | a purchase leaves the token without a live row iff none of its rows was removed by the administrator |
| EscrowIndex.RemovalKeepsTokensTaken | src/admin/services/mass-canceling.service.ts:50-76 | afterwards only the administrator's offers are active, each token has a live row iff it had one, and repeating it changes nothing |
| EscrowIndex.OneLiveKept | src/migrations/Auction_Constraints_20220215000000.ts:15-23 | every scanned call and every mass removal keeps at most one live row per token |
| EscrowIndex.OneLiveRowPerToken | src/migrations/Auction_Constraints_20220215000000.ts:15-23 | over every interleaving of them no insert violates the unique index |
| EscrowIndex.SaleClosesRowIff | src/escrow/unique.ts:176-207 | scanning a sale leaves no live row iff the row was active rather than removed |
| AskMirror.CallSetsView | src/escrow/unique.ts:132-221 | a scanned call sets what the table shows for its token, whatever it showed before, and leaves every other token alone |
| AskMirror.CallSetsBook | blockchain/MarketPlace.sol:161-286 | a successful call sets what the order book shows for its NFT and leaves every other NFT alone |
| AskMirror.MirrorKeptIff | src/escrow/unique.ts:132-221 | whatever happens (calls to the contract or elsewhere, on genuine or lookalike collections, mass removals) keeps table and order book in agreement iff it meets the condition stated for it |
| AskMirror.BuyClosesRow | src/escrow/unique.ts:176-207 | buying an open order closes its one row as bought, changes no other row and adds one trade that splits the order's price |
| AskMirror.MirroredThroughoutIff | src/escrow/unique.ts:132-221 | table and book agree after every step of a run iff every step meets its condition |
| AskMirror.TableMirrorsOrderBook | src/escrow/unique.ts:132-221 | so after every scanned call of every run of indexed calls on the chain's own or unmanaged collections, a managed token has an active row iff its newest order is open, with equal price and seller |
| AskMirror.EditKeepsMirrorIff | blockchain/MarketPlace.sol:209-232 | an edit keeps that iff the order stays open at its price |
| AskMirror.NativeSaleKeepsMirrorIff | blockchain/MarketPlace.sol:272-286 | a native sale keeps it iff the order was not open |
| EscrowAccounting.StepKeepsFiled | src/escrow/unique.ts:307-348 | every step, crashes included, keeps: logged rows are distinct, COMPLETED rows have moved money, PENDING and FAILED rows have not |
| EscrowAccounting.EachRowMovesMoneyOnce | src/escrow/service.ts:284-315 | over every run with crashes and restarts, a row's transaction takes effect at most once, once if COMPLETED, never if PENDING or FAILED |
| EscrowAccounting.WorkMovesItsRow | src/escrow/kusama.ts:97-116 | money moves only in the step that sends a row, by the amount of that row |
| EscrowAccounting.ScanKeepsBalance | src/escrow/unique.ts:254-274 | scanning any call keeps the account balanced |
| EscrowAccounting.UniqueWorkKeepsBalance | src/escrow/unique.ts:307-348 | so does every statement of the Unique daemon |
| EscrowAccounting.KusamaWorkKeepsBalance | src/escrow/kusama.ts:97-116 | and of the Kusama daemon |
| EscrowAccounting.OnChainKeepsBalanceIff | blockchain/MarketPlace.sol:161-318 | what happens around the contract keeps the account balanced iff it is not a successful depositKSM or withdrawKSM of a non-zero amount outside the daemon |
| EscrowAccounting.StepKeepsBalanceIff | src/escrow/unique.ts:176-252 | an event keeps the account iff it meets its condition: only deposits and withdrawals by hand, withdrawals passed over, and restarts of either daemon can break it |
| EscrowAccounting.AccountBalancesIff | src/escrow/unique.ts:176-252 | the account balances after every step of a run, with any interleaving, crash and call, iff every event meets its condition |
| EscrowAccounting.AccountBalances | src/escrow/unique.ts:176-252 | so after every orderly run (no crash, no withdrawal passed over, no deposit or withdrawal by hand): KSM arrived less KSM paid out = contract balances + rows not sent + commissions + unscanned withdrawals + the open part of a sale + arrivals not recorded |
| EscrowAccounting.TablesTellTheAccount | src/escrow/service.ts:230-364 | between two rows the same with the signed rows that are not COMPLETED, failed ones included |
| EscrowAccounting.SettledMarketHoldsItsEarnings | src/escrow/kusama.ts:79-116 | with every call scanned, every arrival recorded and every row COMPLETED the market holds the balances and its commissions |
| EscrowAccounting.CrashKeepsAccountIff | src/escrow/unique.ts:198-202 | a crash of the Unique daemon keeps the account iff the withdrawals read again equal what the interrupted sale still owed |
| EscrowAccounting.KusamaCrashKeepsAccountIff | src/escrow/base.ts:86-113 | a crash of the Kusama daemon keeps it iff the deposits recorded again add up to nothing: each is committed while its block is scanned, the block only at its end |
| EscrowAccounting.SkipKeepsAccountIff | src/escrow/base.ts:88 | a call passed over, because another service recorded its block, keeps it iff it withdrew nothing |
| EscrowAccounting.CrashInSaleKeepsAccountIff | src/escrow/unique.ts:198-202 | a crash after which a sale is read again keeps the account iff nothing was owed any more |
| EscrowSolvency.RunSettlesDebits | src/escrow/unique.ts:198-202 | in every crash-free run a debit of a sale is settled unless the Unique daemon is just at it |
| EscrowSolvency.VaultAgainstObligations | src/escrow/unique.ts:176-207 | after every orderly run, between two rows: KSM held = what the users have coming (balances, uncredited deposits, open payouts, unscanned withdrawals) + commissions − debits that failed |
| EscrowSolvency.MarketSolventIff | src/escrow/unique.ts:176-207 | so everybody can be paid iff the failed debits do not exceed the commissions |
| EscrowSolvency.EarningsAreCoveredIff | src/escrow/unique.ts:176-207 | and the commissions besides iff no debit of a sale has failed |
| EscrowSolvency.DebitFailsIff | src/escrow/unique.ts:307-340 | a debit fails iff its transaction does not land, the daemon has lost its escrow rights, or the seller's balance is below the price by then |
| EscrowLaws.ListingReplacesOffer | src/escrow/unique.ts:132-174 | a scanned listing, field by field: the token's offers cancelled, the new row if made on the market contract |
| EscrowLaws.CancellationClosesOffer | src/escrow/unique.ts:209-221 | a scanned cancellation cancels exactly the token's offers |
| EscrowLaws.SaleRecordsTrade | src/escrow/service.ts:326-364 | a scanned sale records one trade from the offer's seller to the buyer, its price the largest that fits with the commission on top, and closes the active offers |
| EscrowLaws.OtherCallsPass | src/escrow/unique.ts:254-274 | a sale without an offer and every other call change no offer or trade |
| EscrowLaws.RemovalTakesOthersOffers | src/admin/services/mass-canceling.service.ts:50-76 | exactly the other sellers' active offers become removed, and their number is returned |
| EscrowLaws.ProcessingMovesBalance | src/escrow/unique.ts:307-340 | processing a row moves its account's balance by its signed amount iff the transaction lands and the contract takes it, records which, and touches no other row or balance |
| EscrowLaws.PayingMovesVault | src/escrow/kusama.ts:101-114 | paying a row takes its amount from the market's KSM iff the transfer lands |
| EscrowLaws.SalePaysSeller | src/escrow/unique.ts:176-207 | a sale to its end: the offer's seller debited by the price, and a payout to the same seller of the price without commission |
| EscrowLaws.WithdrawalIsPaidOut | src/escrow/unique.ts:223-252 | a withdrawal is found with the balance it emptied and recorded as a payout to its owner |
| EscrowLaws.ArrivalIsCredited | src/escrow/kusama.ts:79-95 | an arrived transfer is recorded as a deposit of its sender |
| EscrowLaws.EveryRowHasCause | src/escrow/service.ts:230-282 | in every run with crashes, each deposit row is an arrival of its account or the price of a sale of its account's, each payout what a sale earned its account or a withdrawal of its balance |
| BooksMirror.CaughtUpShowsCallsInOrder | src/escrow/base.ts:86-113 | in every interleaving, restarts and mass removals included: once all calls are behind it, the table shows for a token what each call scanned once and in order shows, or its row is one left removed, if the daemon could do without the calls it passed over |
| BooksMirror.FollowsThroughoutIff | src/escrow/base.ts:86-113 | all through a run the table shows what the calls in order show, for tokens without calls left to scan, iff every call passed over is followed by another on its token or shows what the table shows |
| BooksMirror.CaughtUpMirrorsIff | src/escrow/unique.ts:132-221 | then it agrees with the order book iff the calls in order do and no row is left removed |
| BooksMirror.InStepThroughoutIff | src/escrow/unique.ts:132-221 | the calls in order show the order book after every step of a run iff every event meets the condition of MirrorKeptIff |
| BooksMirror.CaughtUpTablesMirror | src/escrow/unique.ts:132-221 | so if all on the chain met its condition, the offers are the open orders of the managed collections, whenever all calls are behind the daemon, iff no row is left removed by the administrator |
| Rescans.RescanRepeatsNoSaleIff | src/escrow/unique.ts:176-207 | a restart that reads a range of calls again, after all of them were read in order, adds no trade iff, reading the range in a circle, no sale of it is preceded by a listing of its token |
| Rescans.RescanAddsNoneIff | src/escrow/unique.ts:176-207 | from any table, reading a range of calls adds no trade iff no sale in it finds an offer |
| Rescans.PayoutIffTrade | src/escrow/unique.ts:176-207 | a scanned call leads to a payout iff it records a trade |
| SaleHistory.RunRowsFollow | src/escrow/unique.ts:132-221 | in every run with restarts, calls passed over and mass removals, each managed token has the live row that follows from what was read, in that order |
| SaleHistory.TradesAreFound | src/escrow/unique.ts:176-207 | a call is recorded as a trade as often as its readings find an offer |
| SaleHistory.RecordedOnceIff | src/escrow/unique.ts:176-207 | over every run, a sale is recorded at most once iff no two of its readings find an offer |
| SaleHistory.TradesLeadToPayouts | src/escrow/unique.ts:196-202 | over every run, each trade of a sale has led to a payout, was cut off by a crash, or is being worked on |
| SaleHistory.PaidOutOnceIff | src/escrow/unique.ts:176-207 | so payouts of a sale = readings that find an offer − those cut off or at the desk; without these, at most one payout iff no two readings find an offer |
| EscrowWitnesses.EditedPriceIsMissed | blockchain/MarketPlace.sol:209-232 | a run after which the table shows the price before an edit |
| EscrowWitnesses.NativeSaleIsMissed | blockchain/MarketPlace.sol:272-286 | a run after which the table offers a token that was sold for native coins |
| EscrowWitnesses.CallElsewhereClosesRow | src/escrow/unique.ts:209-221 | a run in which a call to another address closes the row of an open order |
| EscrowWitnesses.LookalikeReplacesOffer | src/escrow/unique.ts:132-174 | a run in which a listing on a lookalike collection replaces the row of an open order |
| EscrowWitnesses.RemovalHidesOpenOrder | src/admin/services/mass-canceling.service.ts:50-76 | a run in which a mass removal takes an open order off the table |
| EscrowWitnesses.RemovedRowOutlivesSale | src/escrow/service.ts:159-169 | a removed row that outlives its sale: reading the sale again records a second trade |
| AccountWitnesses.RereadDepositUnbalances | src/escrow/kusama.ts:79-95 | a balanced run after which a restart of the Kusama daemon that reads a deposit again unbalances the account |
| AccountWitnesses.RereadWithdrawalUnbalances | src/escrow/base.ts:86-113 | a balanced run after which a restart of the Unique daemon that reads a withdrawal again unbalances it |
| AccountWitnesses.SkippedWithdrawalUnbalances | src/escrow/base.ts:88 | a balanced run after which passing over a withdrawal unbalances it |
| AccountWitnesses.SkippedSaleStaysOnOffer | src/escrow/base.ts:88 | a run in which the sale is passed over and the sold token stays on offer |
| AccountWitnesses.RereadSaleIsPaidTwice | src/escrow/unique.ts:176-207 | a run, settled to the last coin, after which a restart reads listing and sale again: a second trade, a debit that fails, a second payout |
| AccountWitnesses.UndebitedSaleIsNotCovered | src/escrow/unique.ts:176-207 | an orderly, balanced run in which the seller empties the balance before the debit: 10 held, 20 to be paid |
| EscrowTurns.FirstPending | src/escrow/service.ts:284-310 | the earliest pending row of a kind, none iff there is none |
| EscrowTurns.ProcessedIsFewer | src/escrow/unique.ts:342-348 | each turn of the loop leaves one pending deposit row less, so it ends |
| EscrowTurns.PaidOutIsFewer | src/escrow/kusama.ts:97-116 | the same for withdraw rows |
| EscrowTurns.CallHandledIsRun | src/escrow/unique.ts:254-274 | processing one call to its end is a run of the machine of the accounting |
| EscrowTurns.DrainedIsRun | src/escrow/unique.ts:342-348 | so is the Unique loop, which leaves no pending deposit row |
| EscrowTurns.DisbursedIsRun | src/escrow/kusama.ts:97-116 | so is the Kusama loop, which leaves no pending withdraw row |
| EscrowDaemons.EscrowService.GetActiveAsk | src/escrow/service.ts:83-91 | a live row of the token, none iff there is none |
| EscrowDaemons.EscrowService.RegisterAsk | src/escrow/service.ts:93-119 | appends an active row without violating the unique index |
| EscrowDaemons.EscrowService.CancelAsk | src/escrow/service.ts:136-146 | cancels exactly the live rows of the token |
| EscrowDaemons.EscrowService.BuyKSM | src/escrow/service.ts:159-169 | closes exactly the active rows of the token |
| EscrowDaemons.EscrowService.MassFixPriceCancel | src/admin/services/mass-canceling.service.ts:50-76 | removes exactly the active offers of other sellers and returns their number |
| EscrowDaemons.EscrowService.RegisterTrade | src/escrow/service.ts:326-364 | one trade whose price and commission add up to the origin price, and the row closed |
| EscrowDaemons.EscrowService.ModifyContractBalance | src/escrow/service.ts:230-256 | appends one pending deposit row |
| EscrowDaemons.EscrowService.RegisterKusamaWithdraw | src/escrow/service.ts:258-282 | appends one pending withdraw row |
| EscrowDaemons.EscrowService.UpdateMoneyTransferStatus | src/escrow/service.ts:312-315 | changes the status of one row |
| EscrowDaemons.UniqueEscrow.ProcessAddAsk | src/escrow/unique.ts:132-174 | replaces a live row of a managed token by the new offer; offers to another contract only cancel |
| EscrowDaemons.UniqueEscrow.ProcessCancelAsk | src/escrow/unique.ts:209-221 | cancels the live row of a managed token |
| EscrowDaemons.UniqueEscrow.ProcessBuyKSM | src/escrow/unique.ts:176-207 | trade, change of the seller's balance and payout, in that order, if the token has a live row |
| EscrowDaemons.UniqueEscrow.ProcessWithdrawAllKSM | src/escrow/unique.ts:223-252 | one withdraw row of the emitted amount for calls to the market contract |
| EscrowDaemons.UniqueEscrow.ProcessCall | src/escrow/unique.ts:254-274 | the next call processed to its end; a failed one leaves no trace |
| EscrowDaemons.UniqueEscrow.ModifyBalanceOnContract | src/escrow/unique.ts:307-340 | the row leaves PENDING, the contract call of its sign is made, its outcome recorded |
| EscrowDaemons.UniqueEscrow.ProcessContractBalance | src/escrow/unique.ts:342-348 | the loop ends with no pending deposit row, having processed them in order |
| EscrowDaemons.KusamaEscrow.ExtractBlockData | src/escrow/kusama.ts:79-95 | a successful transfer to the escrow account becomes one pending row of its amount and sender; a failed one, another receiver or another call none |
| EscrowDaemons.KusamaEscrow.PayRow | src/escrow/kusama.ts:101-114 | the row leaves PENDING before it is paid, and is recorded as the transfer went |
| EscrowDaemons.KusamaEscrow.ProcessWithdraw | src/escrow/kusama.ts:97-116 | the loop ends with no pending withdraw row, having paid them in order |
| Scanning.ScannedBlocks | src/escrow/service.ts:58-61 | the blocks that count as scanned are those that another service recorded and the visited ones that set a timestamp |
| Scanning.TimestampIsLast | src/escrow/base.ts:97-104 | the recorded time is the last one the block sets, none iff it sets none |
| Scanning.TablesAreExtractions | src/escrow/base.ts:86-113 | whatever is visited and recorded in whatever order, the tables are those of extracting the blocks that did not count as scanned when they were visited |
| Scanning.FirstVisitsAreDistinct | src/escrow/base.ts:86-113 | the blocks in first-visit order are the visited blocks, each once |
| Scanning.ExtractedOnceIff | src/escrow/base.ts:86-113 | of the blocks that matter, exactly the visited ones are extracted, once each, iff each visit to one of them meets that condition |
| Scanning.ExactlyOnce | src/escrow/base.ts:86-113 | that is a single pass over the distinct blocks in first-visit order if every first visit finds its block not recorded by another service and every later one finds it scanned |
| Scanning.RowsAreOnceIff | src/auction/services/auction-creation.service.ts:90 | appended rows, each with its block, are those of the single pass iff each visit to a block with rows meets that condition |
| Scanning.Escrow.ScanBlock | src/escrow/base.ts:86-113 | the loop over the extrinsics, and the record of the block with its last timestamp |
| Scanning.Escrow.GetLastScannedBlock | src/escrow/service.ts:63-71 | the greatest scanned block, none iff there is none |
| Scanning.Escrow.GetStartBlock | src/escrow/base.ts:133-140 | where a session starts, for each configured mode: ten blocks before the head, the given block, or the greatest scanned one |
| Scanning.Escrow.Work | src/escrow/base.ts:142-151 | a session visits consecutive blocks from there |
| ScanSessions.SessionIsWork | src/escrow/base.ts:142-151 | a session of the walk does what the work method does |
| ScanSessions.RunKeepsLogged | src/escrow/base.ts:86-113 | in every run of sessions and blocks recorded by others, the tables are those of extracting the logged blocks in order |
| ScanSessions.TurnKeepsOnePassIff | src/escrow/base.ts:133-151 | a turn keeps one gap-free pass iff no session starts with a recorded block beyond the end of it (in mode `latest`: starts within it), and the daemon does not come to a recorded block there |
| ScanSessions.SessionsAreOnePassIff | src/escrow/service.ts:63-71 | over every run of sessions in any mode and blocks recorded by others: one pass throughout iff every turn meets that condition |
| ScanSessions.OnePassTables | src/escrow/base.ts:86-113 | one pass leaves the tables of extracting each block from the first on once, in order |
| ScanSessions.RestartsAreOnePass | src/escrow/base.ts:133-140 | with a fixed start or `current`, restarts at any time make one pass as long as others record only blocks the daemon has passed |
| ScanSessions.LatestCanSkip | src/escrow/base.ts:135 | with `latest` a late session skips blocks |
| ScanSessions.RecordedBlockMovesTheStart | src/auction/services/closing/auction-closing.service.ts:239-245 | a block recorded ahead by an auction moves the start of the next session beyond blocks never scanned |
| ScanSessions.RecordedBlockIsSkipped | src/auction/services/auction-canceling.service.ts:138-146 | a block recorded before the daemon comes to it is passed over |
| DepositScanning.NoDepositNoRows | src/escrow/kusama.ts:79-95 | a block yields rows iff it holds a successful transfer to the escrow account |
| DepositScanning.RowsAreDeposits | src/escrow/kusama.ts:79-95 | the rows of a block are, in order, one for each successful transfer to the escrow account, pending, of its amount and sender; no other extrinsic adds one |
| DepositScanning.DepositsAreOnceIff | src/escrow/base.ts:86-113 | deposits are recorded once, each with its block, iff each visit to a block with a deposit meets the condition of RowsAreOnceIff |
| DepositScanning.UntimedDepositsAreOnceIff | src/escrow/base.ts:112 | on Kusama, where no other service records blocks: iff no block with a deposit and without timestamp is visited twice |
| DepositScanning.UntimedDepositIsTwice | src/escrow/base.ts:112 | such a block, visited twice, leaves two rows |

## Left out

- One network and one Kusama network are modelled, so the network column and its filters are not part of this model.
- Encodings of addresses: the services compare raw address strings in places and store encoded ones; here an account is
  one identifier, and the account-pair table is not part of this model.
- The widths of the database columns and of `flagActive`; only the contract's 256-bit balances have a limit.
- Fixed-price offers and auction offers are kept as two tables. In the database they share one: a scanned call that
  decodes as `addAsk`, `cancelAsk` or `buyKSM` of a token on auction, which a call to another address can do, acts on
  the auction's offer row. In particular `buyKSM`, whose handler never looks at the target (src/escrow/unique.ts:176-207),
  would record a trade, a debit and a payout for a token on auction. That is not modelled.
- Contract calls sent as `ethereum.transact` are only logged by the daemon (src/escrow/unique.ts:276-285), while the
  model scans every successful call that is not the daemon's own.
- The set of managed collections is fixed during a run.
- EscrowAccounting.TablesTellTheAccount: requires that nothing crashes, because a crash can leave a row in progress
  whose transaction took effect; AccountBalancesIff covers runs with crashes.
- EscrowSolvency.VaultAgainstObligations: requires that nothing crashes, for the same reason.
- The books take a call as the unit that is scanned, read again or passed over; that a restart and a recorded block
  concern all calls of a block is the matter of the modules about scanning.
- Transactions whose outcome the daemon or service learns wrongly (submitted, included, and reported as failed), and
  database or RPC errors in the middle of a call. A crash during a close leaves its refund row in flight for good.
- Faults in the middle of scanning a block: `processBlock` swallows them and moves on.
- A lookup and the update that follows it (stopping due auctions, forced stop, mass cancellation, `registerTrade`) are one
  step, although only bids, withdrawals and cancellations run in a database transaction.
- The main loop is taken for a given number of turns; waiting for new heads and the daemons' start-up are not modelled.
- Network fees, existential deposits, and the look at the bidder's on-chain funds before a bid is placed.
- `withdraw`, `terminate`, the setters and the text fields of the market contract; coins sent to the
  contract by other ways than `buy`.
- Sending tokens to winners and back to sellers on the Unique chain, except that the winner's token block may be missing.
- NFT transfer history, search indexes, offers and trades queries, the reporting queries over bids, mass sale,
  collection import, broadcast, authentication and the HTTP layer.
