# Verified models of an Erigon-based zkEVM node

This project models the parts of the node whose correctness is an argument over whole runs rather than over one
call, and proves those arguments. Each group stands on its own.

- **Event feed** (`CaseList`, `FeedProtocol`, `FeedSend`). One-to-many delivery over a select-case list whose active
  prefix shrinks while a send runs. `FeedProtocol` is a state machine over every interleaving of subscribers,
  unsubscribers and senders; `FeedSend` is one `Send` call as the in-place loop it is, proved against the same
  invariant.
- **Dialing and admission** (`ExpHeap`, `DialScheduler`, `Admission`). The dial scheduler as a class with its maps, its
  back-indexed pool of static tasks and its expiring history, proved over any number of loop turns. `Admission`
  composes the server's peer loop with the dialer's view of it, as a state machine over every schedule.
- **Gas and ether** (`Common`, `Balances`, `EffectiveGas`, `GasPool`, `Settlement`, `StateTransition`, `ZkBlock`).
  Percentage scaling of prices, buying gas, refunds, tips and burns in 64- and 256-bit arithmetic. The EVM is any
  function that returns at most the gas it got and changes balances arbitrarily.
- **Transaction-id migration** (`TxsBeginEnd`). The descending in-place relocation that makes room for two system
  slots per block.
- **Capability multiplexing** (`Capabilities`). Message-code ranges as both ends of a connection compute them
  independently (section "Capability Messaging" of the devp2p RLPx Transport Protocol).
- **Fast forms of simple functions** (`AncestorHash`, `KeyBits`, `RangeWalk`, `ChangeLog`, `GasLimit`). A memoised ancestor walk,
  an early-exit range scan, a windowed change log, and the iterated gas-limit rule.

`dafny verify dfyconfig.toml` checks everything.

## What is taken as given

- Go's `container/heap` keeps an item of least expiry first; the arrangement of the others is arbitrary.
- Resolving a node keeps its ID. The clock of the dial scheduler never goes back.
- A key-value cursor walks distinct keys in lexicographic order over a table that does not change under it, and any
  cursor operation may fail.
- Headers are stored under their own number and the block they were asked for.
- A message carries a fee cap. Intrinsic gas and the blob gas price are parameters of a transition. An EVM run may
  create contracts and move nonces, but a call does not move the nonce of its sender.
- The channels of the p2p layer are unbuffered: a peer-added or peer-removed notice is in flight until the dialer
  takes it.

## What turned out to need a condition

- Percentage scaling leaves the tip alone, so a dynamic-fee message keeps its EIP-1559 price exactly under the
  condition of `EffectiveGas.ScaleKeepsPrice`. `StateTransition.ScaledDynamicMessageMints` gives prices that pass the
  fee-cap check and for which every run that spends gas creates ether. `Settlement.MintsIffPriceBelowCredits` and
  `StateTransition.RunConservesIffPriceSplits` say exactly for which prices that happens.
- For the same reason a scaled single-price message has a tip above its cap. Under London it is rejected, unless its
  price is 0 or scaling leaves it alone (`StateTransition.ScaledLegacyRejected`).
- The product in `CalculateEffectiveGas` wraps at 256 bits. The order of prices is kept up to a bound if and only if
  the product does not overflow there (`EffectiveGas.KeepsOrderIffFits`); `EffectiveGas.OverflowBreaksOrder` is a pair
  that changes places.
- Protocol offsets are 64-bit. The negotiated layout is held exactly if and only if its last offset fits
  (`Capabilities.TruncatedIffLastFits`). Codes are handled by their owners, and messages arrive where they were sent,
  if and only if the codes of the layout end below 2^64 (`Capabilities.OwnersHandleIffFits`, `Capabilities.EndToEnd`);
  otherwise `Capabilities.LastCodeLost` is a code that reaches nobody.
- A resumed migration starts again at the block it recorded as done, so for every recorded block its body is shifted
  twice (`TxsBeginEnd.ResumeMovesTwice`). The relocation theorem is about runs without recorded progress.
- The migration sets the EthTx sequence from the last canonical header. `TxsBeginEnd.SequenceEndsPastLastRange` says
  exactly when the sequence ends one past the last range.
- `CalcGasLimit` adds in 64 bits. `GasLimit.StepApproaches` is an equivalence with "the sum does not overflow", and
  `GasLimit.EveryStepApproachesIffReachable` says for which targets that never happens.
- The comment on `startStaticDials` speaks of starting n tasks; the code starts every pooled task, and the model
  follows the code.

## Model

| member | source | states |
|---|---|---|
| CaseList.Find | event/feed.go:213-220 | the result is the first index of a subscriber case, and -1 exactly when there is none |
| CaseList.FindIn | event/feed.go:213-220 | the scan of the backing array returns that index |
| CaseList.DeleteIn | event/feed.go:223-225 | shifting cells down in place yields the list without the case at the index |
| CaseList.DeactivateIn | event/feed.go:228-232 | the in-place swap yields the list with the case exchanged with the last active one |
| CaseList.DeleteActive | event/feed.go:223-225 | deleting inside the active prefix takes one copy out of the prefix and keeps the delivered tail |
| CaseList.DeleteDelivered | event/feed.go:223-225 | deleting behind the prefix keeps the prefix and takes one copy out of the tail |
| CaseList.DeactivateMoves | event/feed.go:228-232 | exactly one case moves from the active prefix to the tail |
| FeedProtocol.RunKeepsInv | event/feed.go:72-190 | every schedule of subscribe, unsubscribe and send steps keeps the invariant: occurrences equal live subscriptions, one lock token, the running send's cases partition what it started from |
| FeedProtocol.SubscriptionStepKeepsInv | event/feed.go:72-124 | Subscribe and each of the four stages of an unsubscription keep it |
| FeedProtocol.SendStepKeepsInv | event/feed.go:128-190 | each step of a running Send keeps it, whichever channel is ready |
| FeedProtocol.SubscriptionsAccountedFor | event/feed.go:72-124 | in every reachable state a channel occurs in inbox and sendCases as often as it has live subscriptions, there is one lock token, no remover fails to find its case, and no delete was done at -1 |
| FeedProtocol.ExactlyOnceDelivery | event/feed.go:128-190 | every finished Send served each starting case once per subscription except those removed before delivery, served nothing else, and returned the number of deliveries |
| FeedProtocol.MergeTakesEverySubscription | event/feed.go:131-144 | the list a Send starts from holds each channel as often as it has live subscriptions at that moment |
| FeedProtocol.RemovedMeansUnsubscribed | event/feed.go:170-177 | during a Send, starting list plus newcomers equals live subscriptions plus the cases taken out, so cases are taken out only for unsubscriptions |
| FeedProtocol.FinishedMeansUnsubscribed | event/feed.go:166-190 | at the step that finishes a Send the same equation holds, so nobody was dropped without unsubscribing |
| FeedProtocol.RemoverHasCase | event/feed.go:103-124 | an unsubscriber past the inbox check always finds a case in sendCases |
| FeedProtocol.SelectRoundProgress | event/feed.go:169-181 | each select round makes active cases plus list length strictly smaller |
| FeedProtocol.OneTypePerFeed | event/feed.go:72-101 | in every run all subscriptions have one element type, and another is taken exactly with that type |
| FeedProtocol.SendStartsIffTypeMatches | event/feed.go:139-143 | once there was a subscription, a Send starts delivering if and only if its value has the type subscribed to |
| FeedProtocol.SendsShareOneType | event/feed.go:95-101 | after a Send that started, a later one starts if and only if its value has the same type |
| FeedProtocol.FirstSendStarts | event/feed.go:95-101 | on a feed not used before, a value of any type is sent |
| FeedProtocol.RoundOffersEachOnce | event/feed.go:159-165 | whichever channels are ready, a round of the fast path has exactly as many tries as active cases and offers the value to each of them once, although served cases are swapped out on the way |
| FeedProtocol.SendNeverStuck | event/feed.go:128-190 | in every reachable state a running Send has its next step, and while it selects every active case and every waiting unsubscriber can be chosen |
| FeedProtocol.UnsubscribeNeverStuck | event/feed.go:103-124 | in every reachable state an unsubscriber can go on, or waits for a Send or for another holder of the lock |
| FeedProtocol.SendCanStart | event/feed.go:128-132 | a Send can take the lock exactly when no Send runs and no unsubscriber holds it |
| FeedSend.Feed.Send | event/feed.go:128-190 | the loop ends; it reports None exactly on a type mismatch, and otherwise the deliveries are the merged subscribers without those removed first, counted by the result, and the list keeps everyone not removed |
| FeedSend.Feed.SendLoop | event/feed.go:154-182 | rounds of trying and selecting end with no active case left, keeping the partition |
| FeedSend.Feed.TryAll | event/feed.go:159-165 | the fast path keeps the partition whatever subset of channels accepts, and makes as many offers as there are active subscribers |
| FeedSend.Feed.SelectRound | event/feed.go:169-181 | one blocking select keeps the partition and shortens prefix plus list |
| FeedSend.Feed.RemoveDuringSend | event/feed.go:171-177 | an unsubscription during a send deletes the first case of the channel and shrinks the prefix exactly when that case was active |
| FeedSend.Feed.DeliverTo | event/feed.go:160-164 | one delivery counts once and moves the served case out of the prefix |
| FeedSend.Feed.MergeInbox | event/feed.go:134-137 | the list afterwards holds the subscribers of list and inbox, and the inbox is empty |
| FeedSend.Feed.Typecheck | event/feed.go:95-101 | the first type seen is the only one accepted from then on |
| FeedSend.FinishedSend | event/feed.go:166-190 | with one case left, starting list equals list plus removed cases |
| ExpHeap.ExpHeap.Expire | p2p/util.go:55-62 | removes exactly the items with expiry before now, each once, in order of expiry |
| ExpHeap.ExpHeap.NextExpiry | p2p/util.go:35-37 | is a lower bound of all expiry times |
| ExpHeap.ExpHeap.Contains | p2p/util.go:45-52 | true exactly when some item has the key |
| ExpHeap.ExpHeap.Add | p2p/util.go:40-42 | adds one item and keeps the least first |
| ExpHeap.ExpHeap.Pop | p2p/util.go:57 | takes out one item of least expiry and nothing else |
| DialScheduler.Scheduler.Loop | p2p/dial.go:229-327 | over any run: a static task is pooled exactly when its node is not self, has a port or no address yet, is not being dialed, not connected, allowed by the restriction and not recently dialed; back-indices are exact; every logged start met these conditions, and one of a discovered node had a free slot; two starts to one node are more than the expiration apart; shutdown receives one done message per entry of dialing |
| DialScheduler.Scheduler.Turn | p2p/dial.go:239-320 | one turn with any event keeps all of that; starts from the pool and from discovery are told apart in the log |
| DialScheduler.Scheduler.Shutdown | p2p/dial.go:322-326 | exactly one outstanding task per entry is received and none is left |
| DialScheduler.Scheduler.StartStaticDials | p2p/dial.go:427-434 | every pooled task and nothing else is added to dialing, in any order, and the pool ends empty and exact |
| DialScheduler.Scheduler.StartDial | p2p/dial.go:465-475 | no entry of dialing is overwritten, the start is logged and remembered, and the view changes for that node only |
| DialScheduler.Scheduler.Remember | p2p/dial.go:465-470 | a start to a node not in the history keeps dial starts spaced and clean |
| DialScheduler.Scheduler.UpdateStaticPool | p2p/dial.go:437-441 | after a node leaves one of the maps, the pool is exact again |
| DialScheduler.Scheduler.AddToStaticPool | p2p/dial.go:444-450 | the added entry gets its own position and no other index changes |
| DialScheduler.Scheduler.RemoveFromStaticPool | p2p/dial.go:454-462 | back-indices stay exact after the last element fills the hole |
| DialScheduler.Scheduler.OnNode | p2p/dial.go:259-264 | a discovered node is dialed exactly when it meets the six conditions, written out, and the pool stays exact |
| DialScheduler.Scheduler.MayDialIsCheckDial | p2p/dial.go:401-424 | checkDial accepts a node exactly under the six conditions |
| DialScheduler.Scheduler.PooledIffMayDial | p2p/dial.go:437-450 | an exact pool holds exactly the static nodes that meet them |
| DialScheduler.Scheduler.FreeDialSlots | p2p/dial.go:391-398 | there is a free slot exactly when running dials are below the maximum and below twice the missing dialed peers |
| DialScheduler.Scheduler.OnDone | p2p/dial.go:266-270 | the finished task leaves dialing, and its static node is pooled again if usable, also with a newly resolved endpoint |
| DialScheduler.Scheduler.OnPeerAdded | p2p/dial.go:272-282 | the peer is recorded and counted, and its static task leaves the pool |
| DialScheduler.Scheduler.OnPeerRemoved | p2p/dial.go:285-290 | the peer is forgotten and uncounted, and its static task returns if usable |
| DialScheduler.Scheduler.OnAddStatic | p2p/dial.go:292-303 | adds the node once and pools it exactly when usable |
| DialScheduler.Scheduler.OnRemoveStatic | p2p/dial.go:305-314 | removes node and pool entry, keeping the pool exact for the others |
| DialScheduler.Scheduler.ExpireHistory | p2p/dial.go:378-387 | no expired entry is left, and every static node that became usable is pooled |
| DialScheduler.Scheduler.OnEvent | p2p/dial.go:251-320 | any one event keeps the invariant; one dial starts exactly for a discovered node that may be dialed while slots are free; peers, dialed-peer count and static nodes change by their own events only, and as those say |
| DialScheduler.Scheduler.OnDiscovery | p2p/dial.go:243-264 | a discovered node is read exactly with free slots |
| DialScheduler.Scheduler.OnTaskDone | p2p/dial.go:266-270 | whichever running task finishes, it alone leaves and the pool is exact again |
| DialScheduler.LogAfterStart | p2p/dial.go:42 | a start to a node without history entry comes later than the expiration after every earlier start to it |
| DialScheduler.StartKeepsLogOk | p2p/dial.go:465-470 | a start to a node outside the history keeps history and log consistent |
| DialScheduler.TasksPerEntry | p2p/dial.go:322-326 | running tasks and entries of dialing are equally many |
| DialScheduler.CheckFrame | p2p/dial.go:401-424 | checkDial of a node depends only on that node's entries |
| DialScheduler.DialedFrame | p2p/dial.go:401-424 | a started dial makes its node undialable and changes nothing for others |
| Admission.LoopsAgree | p2p/server.go:794-856 | in every reachable state with no notice in flight inboundCount is the number of inbound peers, the dialer knows exactly the server's peers, and dialPeers counts the dialed ones |
| Admission.LimitsHold | p2p/server.go:888-903 | peers admitted without trust never exceed MaxPeers, inbound ones never exceed maxInboundConns, and self is never a peer |
| Admission.LimitsWithoutTrust | p2p/server.go:888-903 | with nobody ever trusted, all peers are within MaxPeers and inboundCount is within maxInboundConns |
| Admission.RunKeepsInv | p2p/server.go:794-856 | every schedule of both loops keeps the invariant behind those results |
| Admission.StepKeepsInv | p2p/server.go:794-856 | each single step of either loop keeps it |
| Admission.AdmitKeepsInv | p2p/server.go:832-846 | admitting a checked connection keeps it |
| Admission.DelPeerKeepsInv | p2p/server.go:848-856 | dropping a peer keeps it |
| Admission.DialerStepKeepsInv | p2p/dial.go:272-290 | the dialer's handling of a notice keeps it |
| Admission.TrustKeepsInv | p2p/server.go:800-816 | changing trust of a node, connected or not, keeps it |
| Admission.RunWithoutTrust | p2p/server.go:823-829 | without AddTrustedPeer no connection is ever treated as trusted |
| Admission.DialLimits | p2p/server.go:708-725 | with a ratio that is not negative the dialed share lies between 0 and MaxPeers and is at least 1 when dialing is on; the inbound share is never negative |
| Admission.DialedShare | p2p/server.go:708-725 | the dialed share exactly, for every ratio: 0 without dialing, else the whole number of ratios in MaxPeers, rounded toward zero, and 1 when none fits; the inbound share is the rest |
| Admission.AddsIffWelcome | p2p/server.go:832-846 | a checked connection becomes a peer if and only if it is trusted or both limits leave room, its node is not yet a peer, is not self, and shares a protocol if there are any; otherwise it is closed and the peers stay |
| Admission.JoinsIffWelcome | p2p/server.go:823-846 | in every reachable state both checkpoints together let a connection in if and only if it is welcome, counting as trusted exactly the nodes of the trusted set |
| Admission.NewcomerJoinsIffWelcome | p2p/server.go:823-846 | in every reachable state with the server idle, a new connection made, checked and added becomes the peer of its node if and only if it is welcome, and only then is the dialer told, with whether it was dialed |
| Admission.PeersCanLeave | p2p/server.go:848-856 | in every reachable state a pending notice can be taken or the dialer is busy with one, every peer may exit, and an exited one is dropped by the idle server, which tells the dialer |
| Admission.TrustReachesPeer | p2p/server.go:800-816 | in every reachable state, trusting or distrusting a node changes the trusted set and the flag of its peer and nothing else |
| Balances.TransferConserves | core/evm.go:130-140 | a covered transfer moves the amount and keeps the total; a bailout mints exactly the amount |
| Balances.TransferExactIffCovered | core/evm.go:130-140 | between two accounts the sender loses exactly the amount if and only if `CanTransfer` holds; third accounts keep theirs |
| Balances.CreditAdds | core/state_transition.go:531-541 | a credit raises the account and the total by the amount when the total fits in 256 bits |
| Balances.DebitSubtracts | core/state_transition.go:280-283 | a covered debit lowers the account and the total by the amount |
| EffectiveGas.NonIncreasing | core/state_transition.go:183-191 | no percentage raises any price, wrapping or not |
| EffectiveGas.Monotone | core/state_transition.go:183-191 | below overflow the order of prices is kept |
| EffectiveGas.KeepsOrderIffFits | core/state_transition.go:183-191 | for every bound and percentage, the order of all prices up to the bound is kept if and only if the product does not overflow there |
| EffectiveGas.FirstOverflow | core/state_transition.go:183-191 | past overflow there is a price scaled to 0 right after one scaled to the largest value |
| EffectiveGas.FixedPoints | core/state_transition.go:183-191 | a price is unchanged exactly when it is 0, or the percentage is 255 and the product does not overflow |
| EffectiveGas.OverflowBreaksOrder | core/state_transition.go:183-191 | the pair of prices that changes places at percentage 255 |
| EffectiveGas.DynamicPrice | core/types/dynamic_fee_tx.go:349-379 | a dynamic-fee message has the EIP-1559 price exactly when base fee plus tip does not overflow, or wraps to no less than the cap, which needs a tip above the cap |
| EffectiveGas.ScaleKeepsCap | core/state_processor_zkevm.go:47-50 | scaling keeps gasPrice at most feeCap when the cap does not overflow |
| EffectiveGas.CapStaysCap | core/state_processor_zkevm.go:47-50 | a cap stays above every price below it if and only if it does not overflow or scales to the largest value |
| EffectiveGas.ScaleKeepsLegacyPrice | core/state_processor_zkevm.go:47-50 | scaling keeps the EIP-1559 price of every single-price message; under London such a message settles only as `StateTransition.ScaledLegacyRejected` allows |
| EffectiveGas.ScaleKeepsPrice | core/state_processor_zkevm.go:47-50 | scaling keeps the EIP-1559 price if and only if the cap binds, base fee plus tip is 0, its product lies between the same multiples of 256 as that of the cap, or the percentage is full, nothing overflows and the cap stays above it |
| GasPool.GasPool.AddGas | core/gaspool.go:35-42 | adds exactly when the sum fits in 64 bits |
| GasPool.GasPool.SubGas | core/gaspool.go:45-51 | subtracts exactly when the pool covers it and otherwise changes nothing |
| GasPool.GasPool.SubBlobGas | core/gaspool.go:69-75 | the same for blob gas |
| Settlement.Solvent | core/state_transition.go:215-285 | whoever passes the balance check can pay gas and blob fee without underflow and still holds the value |
| Settlement.BlobFeeCapped | core/state_transition.go:335-349 | the blob fee never exceeds the cap the sender agreed to |
| Settlement.RefundCap | core/state_transition.go:531-551 | the refund is the counter capped at a fifth (London) or a half of the gas spent; used plus refunded is what was spent |
| Settlement.SomeGasUsed | core/state_transition.go:531-551 | refunds never cover all gas spent |
| Settlement.TotalChange | core/state_transition.go:474-502 | for any prices the total changes by what the EVM did, minus the blob fee, minus gas used times the part of the price nobody is credited |
| Settlement.ConservedIffPriceSplits | core/state_transition.go:474-502 | ether is conserved up to blob fee and burnt base fee if and only if nothing was spent or the price is tip plus base fee |
| Settlement.MintsIffPriceBelowCredits | core/state_transition.go:474-502 | the settlement creates ether if and only if gas was spent and tip plus credited base fee exceed the price |
| Settlement.RelationSplits | core/state_transition.go:484-502 | the EIP-1559 price is tip plus base fee, and what a paying message burns is the base fee unless credited |
| Settlement.EtherConserved | core/state_transition.go:474-502 | with EIP-1559 prices, free messages included, the total changes by exactly the EVM's change minus blob fee minus burnt base fee, and no 256-bit credit wraps |
| Settlement.FeesPerUnit | core/state_transition.go:484-502 | bought gas minus all credits is gas used times one rate |
| Settlement.PayTotal | core/state_transition.go:474-546 | refund, tip and burn credits raise the total by their sum, also when recipients coincide |
| Settlement.SettledAccount | core/state_transition.go:474-546 | every account after a settlement has its balance after the EVM plus unused gas at the price if it is the sender, the tip on used gas if it is the coinbase, and the base fee on it if it is the credited burn contract, in 256 bits; coinciding roles add up |
| Settlement.SettledAccountExact | core/state_transition.go:474-546 | exactly that, without wrapping, while the supply fits |
| Settlement.ProducerPaid | core/state_transition.go:484-502 | without refunds every account gets tip and base fee only, as its roles say |
| Settlement.BoughtAccount | core/state_transition.go:280-283 | when the EVM starts the sender has paid for all gas and the blobs, and nobody else has paid |
| StateTransition.Transition.TransitionDb | core/state_transition.go:367-529 | without bailout it succeeds exactly when every check passes and intrinsic gas is covered, and never panics; every account ends with its balance after the EVM plus its part of refund, tip and burn credit; the settled gas is reported, unused gas returns to the pool, blob gas is taken, and the sender's nonce moves on calls; without refunds every account gets its part of tip and burn credit only |
| StateTransition.RunConservesIffPriceSplits | core/state_transition.go:367-529 | for every message with intrinsic gas and every EVM, a run conserves ether if and only if the price is tip plus base fee |
| StateTransition.Transition.PreCheck | core/state_transition.go:300-352 | succeeds exactly when nonce, code, fee-cap, blob-price, balance and pool checks all hold; then sender and pools are charged, otherwise balances and gas pool are untouched |
| StateTransition.AdmissibleWentThrough | core/state_transition.go:215-352 | a message that passed every check with its price within its cap is solvent, within its blob cap, and pays the base fee unless free |
| StateTransition.Transition.BuyGas | core/state_transition.go:215-285 | succeeds exactly when nothing overflows, blob gas is there and, unless bailing out, balance and gas pool suffice; charges exactly what is covered; on failure only blob gas may stay taken |
| StateTransition.Transition.BuyBlobGas | core/state_transition.go:223-240 | succeeds exactly when the blob price is known, the fee fits and the blob pool covers the gas, which it then loses |
| StateTransition.Transition.RequiredBalance | core/state_transition.go:242-263 | the checked sum is exact and overflow is reported, never wrapped |
| StateTransition.Transition.RefundGas | core/state_transition.go:531-546 | the capped refund is added, the sender credited, and the pool refilled exactly when that fits 64 bits |
| StateTransition.Transition.PayFees | core/state_transition.go:484-502 | coinbase and burnt contract get tip and base fee on the used gas, together if they coincide, and no other account changes |
| StateTransition.Transition.PayIntrinsicGas | core/state_transition.go:405-426 | succeeds exactly when intrinsic gas is computable and covered and init code is not too large |
| StateTransition.Transition.Prepare | core/state_transition.go:387-463 | succeeds exactly when every check passes and intrinsic gas is covered; then gas is bought, intrinsic gas paid and the sender's nonce moved |
| StateTransition.Transition.Finish | core/state_transition.go:474-528 | every account, used gas and pool are those of the settlement, or without refunds the credits on the full gas |
| StateTransition.CheckFeeCap | core/state_transition.go:287-297 | passes exactly when the tip is within the cap and the cap covers the base fee or the message is free |
| StateTransition.ScaledLegacyRejected | core/state_transition.go:287-297 | a scaled single-price message is rejected for its tip if and only if its price is not 0 and scaling changes it |
| StateTransition.ScaledDynamicPrices | core/state_processor_zkevm.go:47-50 | a dynamic-fee message with the EIP-1559 price that passes the fee-cap check after scaling but pays less than it credits |
| StateTransition.ScaledDynamicMessageMints | core/state_processor_zkevm.go:47-50 | every run of it that spends gas creates ether |
| StateTransition.MintingRun | core/state_processor_zkevm.go:47-50 | every funded sender has such a run: the checks pass, the EVM moves nothing, and the total grows |
| StateTransition.CheckSender | core/state_transition.go:301-323 | passes exactly when nonce checks are off, or the nonce matches, is not the maximum and the sender has no code; tells too high, too low and maximal nonces apart |
| ZkBlock.ExecuteBlock | core/blockchain_zkevm.go:71-162 | pool gas plus used gas is the block limit, which is the header's from Elderberry on and all of 64 bits before; used gas is the sum over receipts, each receipt built carries the prefix sum and reports its own transaction's gas and status; every executed transaction was admitted in its place, charged and settled as its own fields say, from the state before the block to that after it; on failure the history stops at a transaction that is not admitted in its place |
| ZkBlock.HappenedGrows | core/blockchain_zkevm.go:97-162 | an admitted, charged, settled and reported transaction extends the history of a block |
| ZkBlock.ApplyTransaction | core/state_processor_zkevm.go:36-133 | succeeds exactly when the transaction, in its own fields, may run: sender at its nonce, cap at least the base fee unless free, cost covered; then the sender is charged gas at price * (ep + 1) mod 2^256 / 256 from Dragonfruit on and at the plain price before, the settlement pays every account by that price, its gas leaves the pool, the running total grows by it, and receipt and block-info copy report its gas and status |
| ZkBlock.AdmittedIffAdmissible | core/state_processor_zkevm.go:36-60 | the checks on the message a transaction becomes are those stated on the transaction: scaled cap and price, unscaled tip, free if a zero scaled cap and a service transaction, or if the message was free |
| ZkBlock.SettledPays | core/state_processor_zkevm.go:36-133 | a settled transaction charged its sender and paid every account by its own gas, percentage, fees and the fork rules |
| ZkBlock.AppendReceipt | core/blockchain_zkevm.go:308-347 | appending a receipt and its block-info copy keeps prefix sums, with the pre-Elderberry overwrite |
| ZkBlock.TransactionConservesEther | core/state_processor_zkevm.go:36-133 | one executed transaction with an EIP-1559 price changes the total by what the EVM minted minus blob fee and burnt base fee |
| ZkBlock.BlockConservesEther | core/blockchain_zkevm.go:97-162 | so does any executed block of them, for every prefix, while the supply fits in 256 bits |
| ZkBlock.SupplyFitsThroughout | core/blockchain_zkevm.go:97-162 | if no EVM run creates ether, a supply that fits at the start fits throughout and never grows |
| ZkBlock.ExecuteConserving | core/blockchain_zkevm.go:71-162 | executing such a block changes the total by exactly what the runs destroyed, the blob fees and the burnt base fees |
| TxsBeginEnd.FreshRunRelocates | migrations/txs_begin_end.go:58-160 | a run without recorded progress moves every block's transactions, in order, between two empty slots at its new range, shifts every body, drops side bodies, and leaves nothing past the last range |
| TxsBeginEnd.RelocateStep | migrations/txs_begin_end.go:71-160 | one turn of the descending loop extends the relocated part by one block without losing a transaction not moved yet |
| TxsBeginEnd.MigrateFrom | migrations/txs_begin_end.go:58-160 | from any point of the descent the rest of the loop completes the relocation |
| TxsBeginEnd.ShiftTableSpec | migrations/txs_begin_end.go:91-112 | what moving one gapless block does to every single id, also when old and new ranges overlap |
| TxsBeginEnd.ShiftKeepsTable | migrations/txs_begin_end.go:91-112 | moving block k keeps the ids below it unread and intact |
| TxsBeginEnd.SkipMissing | migrations/txs_begin_end.go:83-89 | heights without a body change nothing |
| TxsBeginEnd.RangesTile | migrations/txs_begin_end.go:96-97 | the new ranges tile the id space: every id below the end is in exactly one |
| TxsBeginEnd.NoStaleId | migrations/txs_begin_end.go:103-112 | every id left in the table is strictly inside one range and holds a transaction of that block |
| TxsBeginEnd.ResumeMovesTwice | migrations/txs_begin_end.go:39-41 | at every recorded block, going on below it completes the relocation and restarting at it, as the code does, does not |
| TxsBeginEnd.LowerBlocksKeepBody | migrations/txs_begin_end.go:58-112 | a descent never touches a body above it |
| TxsBeginEnd.SequenceEndsPastLastRange | migrations/txs_begin_end.go:181-220 | the EthTx sequence ends one past the last range if and only if the last canonical header is that of the last block with a body, or is above it or missing and the sequence had that value |
| TxsBeginEnd.ForAmountContiguous | erigon-lib/kv/mdbx/kv_mdbx.go:2227-2247 | over present ids the cursor read returns those transactions in order |
| TxsBeginEnd.WrittenAt | migrations/txs_begin_end.go:228-246 | writing a block fills its ids and touches no other |
| TxsBeginEnd.Database.CanonicalTransactions | migrations/txs_begin_end.go:339-360 | the loop returns the first entries from the base id on |
| TxsBeginEnd.Database.WriteAll | migrations/txs_begin_end.go:228-246 | the loop writes consecutive ids from the base |
| TxsBeginEnd.Database.DeleteSideBodies | migrations/txs_begin_end.go:125-160 | exactly the other bodies of that height are deleted |
| TxsBeginEnd.Database.Relocate | migrations/txs_begin_end.go:71-160 | one turn in place is the specified step |
| TxsBeginEnd.Database.LastCanonical | migrations/txs_begin_end.go:191-199 | the greatest canonical height, or none exactly when the table is empty |
| TxsBeginEnd.Database.Up | migrations/txs_begin_end.go:29-220 | the whole migration in place is the specified descent followed by both sequence updates, also without canonical headers |
| TxsBeginEnd.RunFreshMigration | migrations/txs_begin_end.go:29-220 | a fresh run in place relocates everything, resets the non-canonical sequence, and ends the EthTx sequence as stated |
| Capabilities.PeersAgree | p2p/peer.go:403-425 | two peers with equal lengths for shared protocols compute the same names, versions, lengths and offsets |
| Capabilities.PeersSameLayout | p2p/peer.go:403-425 | so both give every shared protocol the same codes and end at the same code |
| Capabilities.NegotiatedLayout | p2p/peer.go:403-425 | each name gets its highest shared version, names in order, ranges packed from 16 without gaps despite rollbacks |
| Capabilities.NegotiatedOffsets | p2p/peer.go:403-425 | each matched protocol starts at 16 plus the codes of all matched protocols whose names are smaller at the first difference, summed in any order; the layout ends after the codes of all |
| Capabilities.NameLessIffBefore | p2p/protocol.go:84-86 | one name is below another exactly when they agree up to some place where it ends or has the smaller character |
| Capabilities.CodesWithout | p2p/peer.go:403-425 | the number of codes of a set of protocols does not depend on the order of summation |
| Capabilities.MatchOneKeepsInv | p2p/peer.go:409-423 | one capability keeps that, including a version upgrade |
| Capabilities.MatchProtocols | p2p/peer.go:403-425 | the nested loops, in 64-bit arithmetic with its rollbacks, compute that layout modulo 2^64; each protocol starts at 16 plus the codes of those before it by name |
| Capabilities.MatchCap | p2p/peer.go:410-422 | one turn of the outer loop is one matching step modulo 2^64 |
| Capabilities.TruncatedIffLastFits | p2p/peer.go:403-425 | 64-bit offsets hold a layout exactly if and only if its last offset fits in 64 bits |
| Capabilities.FindProtocol | p2p/peer.go:410-411 | finds the first local protocol with the name and version, and none before it has both |
| Capabilities.SortCaps | p2p/protocol.go:80-86 | a sorted permutation |
| Capabilities.CapOrder | p2p/protocol.go:84-86 | the order used for sorting is asymmetric and its negation transitive |
| Capabilities.NameOrder | p2p/protocol.go:84-86 | string order is strict and total |
| Capabilities.SortedNamesUnique | p2p/peer.go:403-425 | there is only one ascending list of a set of names, so both sides walk the same order |
| Capabilities.RangesDisjoint | p2p/peer.go:454-461 | a code lies in at most one protocol's range |
| Capabilities.RangesTile | p2p/peer.go:454-461 | a code lies in some range exactly when it is in [16, end) |
| Capabilities.HandlesIsInRange | p2p/peer.go:454-461 | while the codes end below 2^64, the wrapping range test is the range test |
| Capabilities.OwnersHandleIffFits | p2p/peer.go:454-461 | every 64-bit code is handled by the owner of its range if and only if the codes of the layout end below 2^64 |
| Capabilities.LastCodeOwned | p2p/peer.go:454-461 | when they do not, the last 64-bit code has an owner |
| Capabilities.GetProto | p2p/peer.go:454-461 | whatever the map order, a protocol whose test accepts the code is returned, and none exactly when there is none; while the codes end below 2^64 it is the one owner, and there is one exactly in [16, end) |
| Capabilities.Route | p2p/peer.go:215-222 | matching and lookup together route every code to its owner while the codes of the layout end below 2^64; otherwise the last 64-bit code has an owner and is refused |
| Capabilities.EndToEnd | p2p/peer.go:476-520 | in 64-bit arithmetic, every code written on a shared protocol stays clear of the base protocol, is handled by the same protocol of the other side only, and is read back unchanged, if and only if the codes of the layout end below 2^64 |
| Capabilities.LastCodeLost | p2p/peer.go:476-483 | otherwise the code that goes out as the last 64-bit code is written and reaches nobody |
| Capabilities.ReadUndoesWrite | p2p/peer.go:476-520 | taking the offset off undoes adding it, also across a wrap |
| Capabilities.AnnouncedMatches | p2p/server.go:548-551 | a capability is announced exactly when a configured protocol has its name and version |
| Capabilities.CountMatchingProtocols | p2p/peer.go:390-400 | the loops count the matching pairs |
| Capabilities.UsefulPeer | p2p/server.go:898-899 | the count is positive exactly when some protocol would run |
| AncestorHash.HashFn.GetHash | core/evm.go:95-126 | the cached answer is the uncached parent walk, the cache stays exact and only grows |
| AncestorHash.HashFn.GetHashes | core/evm.go:95-126 | so for any sequence of queries, also after one ran off the known chain |
| AncestorHash.StepOnPath | core/evm.go:112-123 | walking on from a cached hash is walking from the reference |
| RangeWalk.Walk | ethdb/kv_util.go:10-30 | the visited rows are the first of exactly those at or after the start key that agree on the fixed bits, in order; all of them unless the walker stops or fails or a cursor operation fails, and each error is reported exactly when it happened |
| RangeWalk.GoingOnVisitsAll | ethdb/kv_util.go:10-30 | a walker that always goes on over a cursor that does not fail is shown every wanted row |
| RangeWalk.WalkRows | ethdb/kv_util.go:16-29 | the loop reports that from the row the seek landed on |
| KeyBits.MatchesComparesBits | ethdb/kv_util.go:16-40 | the byte-and-mask test compares exactly the first fixedbits bits |
| KeyBits.MatchesIsMatchesTop | ethdb/walk.go:53-67 | the byte-and-mask test is the test on whole bytes and top bits |
| KeyBits.MatchesBetween | ethdb/kv_util.go:16-29 | every key between the start and a matching key matches, so stopping at the first mismatch loses none |
| KeyBits.LessEqIffNotAfter | ethdb/kv_util.go:10-30 | the key order puts a key first exactly when it is a prefix or has the smaller byte at the first difference |
| RangeWalk.ScanStep | ethdb/kv_util.go:16-29 | past the start key a match is the next wanted row and a mismatch ends the wanted rows |
| RangeWalk.SeekSkipsNothing | ethdb/kv_util.go:12 | the rows before the seek position are not wanted |
| RangeWalk.ScanIsExact | ethdb/kv_util.go:10-30 | a scan holds exactly the wanted rows |
| KeyBits.MaskComparesTop | ethdb/kv_util.go:32-40 | under the mask computed from the bit count, two bytes are equal exactly when their fixed bits are |
| KeyBits.TopComparesBits | ethdb/kv_util.go:32-40 | equal top bits as numbers are equal bit by bit |
| RangeWalk.SplitCursor.Seek | ethdb/walk.go:69-78 | delivers the first wanted row in parts, with the other wanted rows still to come; an error exactly when the cursor failed |
| RangeWalk.SplitCursor.Next | ethdb/walk.go:80-89 | delivers the next wanted row in parts, and keeps saying so once there is none; an error exactly when the cursor failed |
| RangeWalk.SplitCursor.Collect | ethdb/walk.go:69-89 | a caller that seeks and then asks for the next until there is none sees the wanted rows cut up, in order, and all of them unless an operation of the cursor failed |
| RangeWalk.SplitCursor.Split | ethdb/walk.go:53-89 | a fetched row is cut at the three positions exactly when its key agrees on the match bits |
| ChangeLog.States.ChangesSince | dataflow/states.go:97-118 | reading the report yields the whole history: for anyone when the snapshot is included, otherwise for whoever knows the first startTick changes; past the end it lists nothing |
| ChangeLog.States.AddChange | dataflow/states.go:65-75 | the history grows by that change, and snapshot plus window keep meaning the history |
| ChangeLog.States.MakeSnapshot | dataflow/states.go:77-95 | folding the window changes neither the history nor its meaning and empties the window |
| ChangeLog.States.WindowLatest | dataflow/states.go:82-86 | the backward loop collects the last state of each identifier |
| ChangeLog.States.FoldIn | dataflow/states.go:87-93 | applying the collected states in any map order gives the same snapshot |
| ChangeLog.States.Ascend | dataflow/states.go:105-108 | lists each entry once in ascending order |
| ChangeLog.States.WindowLines | dataflow/states.go:115-117 | lists the window from a position on |
| ChangeLog.ReplayIsOverlay | dataflow/states.go:77-95 | overlaying the last writes of a window is replaying it, 0 meaning absent |
| ChangeLog.LatestBackwards | dataflow/states.go:82-86 | read backwards, an earlier change counts only for identifiers not seen yet |
| ChangeLog.SnapshotReportReads | dataflow/states.go:102-117 | a snapshot report reads as snapshot then window, whatever was known |
| ChangeLog.ChangesReportReads | dataflow/states.go:110-117 | a report without snapshot completes what the reader knew |
| GasLimit.StepApproaches | core/block_validator.go:26-47 | from 2048 on, a step reaches the target or moves towards it by exactly the largest amount below a 1024th, if and only if the upward sum does not overflow |
| GasLimit.EveryStepApproachesIffReachable | core/block_validator.go:26-47 | every step from every limit of at least 2048 approaches the target, if and only if one below the target does not overflow |
| GasLimit.ReachesTarget | core/block_validator.go:26-47 | from any limit of at least 2048, down to any target and up to any target clear of overflow, iterating arrives after finitely many steps and stays; the target is the desired limit, at least 5000 |
| GasLimit.StaysAtTarget | core/block_validator.go:26-47 | the target is a fixed point |
| GasLimit.LegalTargetsReachable | params/protocol_params.go:26-28 | no legal gas limit is large enough to overflow on the way |
| GasLimit.OverflowDropsLimit | core/block_validator.go:26-47 | a parent near the top of the word whose next limit is tiny |

## Left out

- The EVM, journaled state, sparse Merkle tree, block-info tree, RLP, Keccak and signatures: foreign code, taken as arbitrary functions where they matter.
- Gas-bailout runs, stateless execution with rejected transactions, and the non-zk block loop: the pool equation is not meant for them. The bailout branches themselves are in the model.
- The nonce of a sender that creates a contract: it moves inside the EVM, so the nonce clause of `TransitionDb` speaks of calls only.
- Receipt fields other than gas and status, Bor logs, inner transactions, system calls and the nil-to-zero fee defaults of messages without a fee cap.
- `CalculateEffectiveGas` overwrites its argument in the source; the model is on values, so aliasing of the price word is not captured.
- The server's run loop is a state machine on values, because its property is about the composition with the dialer loop; the update of its maps in place is not captured.
- Subscribe and Unsubscribe as separate in-place methods: their steps are part of the protocol model only.
- Whether a peer's trusted flag agrees with the trusted set: it may change between the two checkpoints and is not an invariant.
- The capability slice is sorted on values, not in place.
- Negative bit counts of a range scan.
- Deletion of non-canonical transactions, headers and total difficulties, commits every 10,000 blocks, and the helpers for making bodies non-canonical in the migration.
- Tick labels in the reports of the change log: the two branches number changes differently, and nothing is claimed about them.
- Ancestor queries at or above the reference block, and gas limits below 2048: special cases of unsigned wrap-around or a zero step.
- Networking, timers, logging, statistics, and the merge of history and state in the storage walkers.
