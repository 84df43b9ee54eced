# nhbchain accounting and scheduling, in Dafny

A model of the parts of the nhbchain node whose correctness lies in sums, rounding and the agreement of
redundant views over unbounded runs, and proofs about them. Check the whole project with
`dafny verify dfyconfig.toml`.

Each component comes as a specification (a state value and one function per operation), theorems about every
run of those operations, and, since the source updates its state in place, a class whose methods and loops are
proved to compute exactly the specification.

| component | specification | theorems | class or loops |
|---|---|---|---|
| POTSO stake locks | StakeLocks | StakeLockProofs, StakeLockRuns, StakeLockSupply, StakeLockIndex, StakeLockRepay, StakeLockSolvency, StakeLockQueue | StakeVault |
| epoch rewards | ProRata, EpochRewards, RewardSettlement | the same, and ProRataFairness | RewardProcessor |
| delegated staking | Delegation | DelegationRuns, StakeAccrual | StakingProcessor |
| staking reward claims | RewardClaims | RewardClaims | RewardClaims |
| loyalty settlement at block end | Loyalty | Loyalty, LoyaltyRuns | LoyaltyProcessor |
| POS lanes and mempool | PosLanes, Mempool | PosLanes, Mempool, MempoolBounds | PosLanes, MempoolNode |
| token buckets and the per-address limiter | TokenBuckets, RateLimiter | LimiterRuns, LimiterEviction, LimiterWitness | TokenBuckets, IpRateLimiter |
| handshake nonce guard | NonceGuard | NonceGuardRuns | HandshakeGuard |
| chain store | ChainKeys, ChainIndex | ChainRuns, ChainCrash, ChainLinks, ChainBytes | Blockchain |

## Main results

- Stake locks: in every run over all owners the lock table, the bonded totals and the nonce index agree, and what
  happens to vault balance minus stored locks is stated exactly. Unbonding moves exactly the requested amount and
  splits at most one lock. When the queue keeps matching, when nothing falls out of the index, when a lock is paid
  again and when the vault can run dry each have a condition that is shown to decide it.
- Apportionment: every pool is paid out exactly, each claim gets the floor of its share or one unit more,
  the result does not depend on the order of the weights, and larger values never get less. The fallback pass is dead code.
- Delegation: for every validator, stake minus delegated lock is the same after every run, so both underflow
  branches are unreachable; an unbonding entry is pending exactly until its owner is paid under its identifier, and a
  claim pays it, in full, if and only if it is unpaused, past the unbonding period and the first to do so.
- Loyalty: the loop with its clamps and early exits computes the plain rule that scales every reward.
- Rate limiter: forgetting idle addresses is invisible to every run of calls if and only if the timeout lets an empty bucket refill.
- Nonce guard: with observation times that never run backwards, a nonce is remembered without a break exactly until a
  sweep at or after its expiry or until the cap pushes it out, however often it is offered again.
- Chain store, down to the byte strings it uses as keys: after every run that reuses no block hash, failed writes
  included, reopening rebuilds the chain in memory if and only if no block stopped after its first write since the last one
  that was added. No run reuses a hash unless two of the headers it offers hash alike.

## Where the code does not meet a property

- Unbonding stops copying nonces once the request is met (core/node.go:4564-4569). `UnbondKeepsListed` and
  `UnbondCoverage` give the exact conditions under which nothing falls out of the index, `ShortUnbondStrands` a run
  where a lock does, and `StrandedForever` and `StrandedUnpaid` show that it is never paid.
- The state manager stores locks, index and queue days under a key that is hashed twice and deletes them under the key
  hashed once (core/state/manager.go:1562-1585, core/state/manager.go:1979-1986, core/state/manager.go:2001-2011,
  core/state/manager.go:2028-2035, core/state/manager.go:4122-4131), so its deletes miss. `State.erasing` says whether
  deletes take effect: `true` is what the manager's interface promises, `false` is what the code does. Theorems hold
  for both unless they say otherwise. With `false`: `StillListed` and `RepeatPays` say exactly when a lock is paid
  again, `PaidOnce` when it never is, `NeverUnderfunded` and `CarelessUnderfunds` when the vault can always pay and when
  not, `RunQueue` when queue and locks match; `UnerasedPaysTwice` and `UnerasedUnderfunds` are runs that go wrong.
- A lock owned by the vault creates coins and a withdrawal by the vault destroys them (`LockSupply`, `WithdrawSupply`);
  a loyalty payout to the treasury creates coins (`ConservedWhen`, `TreasuryMints`). In each the second write of the same
  account wins.
- A settlement history with a limit forgets epochs, and a forgotten epoch is paid again when its number comes back
  (`RepeatExactly`, `PrunedPaysTwice`). Epoch numbers are the height divided by the epoch length (core/epochs.go:150), so
  they come back when the length is raised.
- A block or a genesis block whose writes stop part-way can leave a store that reopens as neither the old nor the new
  chain, or not at all (`CrashExact`, `FoundingCrashExact`).

## Conventions

- `big.Int` amounts are `nat` or `int`; times, the pause flag, the reward index, budgets and caps are parameters.
- Addresses are numbers: byte strings coded injectively so that the numeric order of addresses of equal length is
  their byte order and 20-byte addresses form one interval.
- Floating-point token counts are `real`: rounding is not modelled.
- Manager and trie reads and writes are maps and do not fail; the chain store's writes can fail at every point.
- Header hashing and the transaction root are parameters of the chain model. No injectivity is assumed: where two
  blocks with one hash matter, a theorem says so.
- Unix seconds, heights in loops, nonces and identifiers are unbounded except where the text says 64 bits.

## Model

| member | source | states |
|---|---|---|
| StakeLockProofs.ConsumeKeeps | core/node.go:4519-4567 | the consuming loop keeps the lock table well formed, preserves the stored total, and takes from the owner's active stake exactly what it reports, from nobody else's |
| StakeLockProofs.ConsumeTouches | core/node.go:4527-4557 | the loop changes only the owner's bonded locks it lists, leaves unbonding locks alone and adds at most one lock, the rest of a split |
| StakeLockProofs.ConsumeMeets | core/node.go:4498-4567 | a request the pre-scan found coverable is met exactly: nothing remains |
| StakeLockProofs.ReachIsShortest | core/node.go:4564-4566 | the loop stops at the shortest prefix of the index whose bonded locks cover the request |
| StakeLockProofs.ConsumeKept | core/node.go:4527-4569 | the index written back is exactly that prefix plus the nonce of the split; every later nonce is dropped |
| StakeLockProofs.SweepPays | core/node.go:4625-4658 | the withdrawing loop pays exactly the listed locks that are due, in index order, whether or not deletes take effect |
| StakeLockProofs.SweepLists | core/node.go:4625-4662 | it keeps exactly the other nonces, likewise |
| StakeLockProofs.SweepLocks | core/node.go:4652-4657 | it deletes exactly the due locks if deletes take effect, and no lock otherwise |
| StakeLockRuns.WalkTotals | core/node.go:4513-4575 | unbonding preserves the stored total and moves what it reports out of the owner's active stake |
| StakeLockRuns.WalkMeets | core/node.go:4498-4575 | a coverable request is unbonded in full |
| StakeLockRuns.StepCore | core/node.go:4366-4705 | every lock, unbond and withdraw of every owner keeps lock table, index and bonded totals in agreement, in either mode of deletes |
| StakeLockRuns.RunCore | core/node.go:4366-4705 | so does every run over all owners |
| StakeLockRuns.WithdrawReply | core/node.go:4660-4704 | a withdrawal that finds something due pays all of it, or is refused exactly when the vault holds less |
| StakeLockRuns.WithdrawPays | core/node.go:4590-4705 | a successful withdrawal pays exactly the listed locks that have been unbonding for the whole seven days |
| StakeLockRuns.WithdrawDrift | core/node.go:4652-4693 | the exact change of vault balance minus stored locks; it stays if and only if nothing is due, or deletes take effect just when the vault can pay |
| StakeLockRuns.RunSurplus | core/node.go:4366-4705 | over every run the surplus stays with effective deletes, if it starts non-negative, and otherwise falls by exactly what the run paid out |
| StakeLockRuns.UnusedIsSound | core/node.go:4366-4705 | a ledger without locks satisfies the invariants with the vault balance as surplus |
| StakeLockSupply.LockSupply | core/node.go:4366-4456 | a lock conserves the coin supply if and only if the owner is not the vault; otherwise it adds the amount |
| StakeLockSupply.WithdrawSupply | core/node.go:4674-4693 | a withdrawal conserves it if and only if the owner is not the vault, nothing is due or the vault cannot pay; otherwise the payout is lost |
| StakeLockSupply.RunSupply | core/node.go:4366-4705 | runs without operations of the vault itself neither create nor destroy coins |
| StakeLockSupply.NoReplay | core/node.go:4601-4607 | once a request was accepted, no later request of that owner with the same or a lower auth nonce is, whatever happens between |
| StakeLockIndex.UnbondKeepsListed | core/node.go:4519-4571 | an unbond keeps every listed nonce listed if and only if the request exceeds the bonded stake listed before the last nonce |
| StakeLockIndex.UnbondCoverage | core/node.go:4519-4571 | it keeps every bonded lock listed if and only if the request exceeds the bonded stake listed before the last bonded lock |
| StakeLockIndex.ShortUnbondStrands | core/node.go:4564-4571 | a concrete run, in either mode of deletes, in which an unbond drops a bonded lock from the index |
| StakeLockIndex.StrandedForever | core/node.go:4366-4705 | an unlisted lock stays stored, unchanged and unlisted in every further run |
| StakeLockRepay.StrandedUnpaid | core/node.go:4590-4705 | and is never paid |
| StakeLockRepay.StillListed | core/state/manager.go:1979-1986 | after a withdrawal a due lock is still listed if and only if deletes miss and everything listed was due |
| StakeLockRepay.PaidOnce | core/node.go:4590-4705 | a lock paid with effective deletes, or while something else stayed listed, is never paid again in any run |
| StakeLockRepay.RepeatPays | core/state/manager.go:2008-2011 | with deletes that miss, repeating a withdrawal pays its locks again if and only if everything listed was due and the vault held the amount twice |
| StakeLockSolvency.NeverUnderfunded | core/node.go:4683-4685 | from an unused ledger no operation of a run is refused for an underfunded vault, if deletes take effect or every paying withdrawal left something of its owner listed |
| StakeLockSolvency.CarelessUnderfunds | core/node.go:4590-4705 | otherwise, with deletes that miss, an owner who is due everything listed can withdraw until that refusal |
| StakeLockSolvency.UnerasedPaysTwice | core/state/manager.go:2008-2011 | with deletes that miss, a concrete lock is paid by two withdrawals in a row |
| StakeLockSolvency.UnerasedUnderfunds | core/node.go:4683-4685 | and a concrete run ends in the refusal for an underfunded vault |
| StakeLockQueue.QueueGainsRef | core/state/manager.go:2037-2065 | marking a lock as unbonding together with queueing it on its day keeps queue entries and unbonding locks one-to-one |
| StakeLockQueue.ConsumeQueue | core/node.go:4519-4567 | the consuming loop keeps them one-to-one |
| StakeLockQueue.RemovalExact | core/state/manager.go:2067-2089 | with deletes that miss, taking a paid lock off the queue keeps them one-to-one if and only if its day holds no other entry |
| StakeLockQueue.RunQueue | core/node.go:4366-4705 | over every run they stay one-to-one if and only if deletes take effect or no withdrawal takes an entry off a day that holds others |
| StakeVault.Vault.AllocateNonce | core/state/manager.go:1926-1941 | the object allocates the specified nonce and advances the counter |
| StakeVault.Vault.EnqueueWithdrawal | core/state/manager.go:2037-2065 | the scan for an existing entry and the append compute the specified queue |
| StakeVault.Vault.DequeueWithdrawal | core/state/manager.go:2067-2089 | the filtering loop computes the specified queue |
| StakeVault.Vault.LockStake | core/node.go:4366-4456 | the lock operation takes the object to the specified state and reply, errors included |
| StakeVault.Vault.SumActive | core/node.go:4498-4508 | the pre-scan sums the listed bonded locks |
| StakeVault.Vault.StartUnbonding | core/node.go:4531-4563 | marking or splitting one lock changes locks, queue and nonces as specified |
| StakeVault.Vault.ConsumeLocks | core/node.go:4515-4567 | the loop with its early exit computes the specified walk |
| StakeVault.Vault.Unbond | core/node.go:4458-4587 | the unbond operation takes the object to the specified state and reply, errors included |
| StakeVault.Vault.SweepMatured | core/node.go:4619-4658 | the withdrawing loop computes the specified sweep |
| StakeVault.Vault.Withdraw | core/node.go:4590-4705 | the withdraw operation takes the object to the specified state and reply, errors included |
| ProRata.SortSorts | core/rewards_logic.go:300-306 | the remainders come out ordered, largest first and ties by address, and are a permutation of the input |
| ProRataFairness.OrderedIsSort | core/rewards_logic.go:300-306 | whatever ordered permutation a sorting routine returns, it is the one list the second pass is specified on |
| ProRata.FloorsAndRests | core/rewards_logic.go:287-297 | floors and remainders together account for the whole pool times the denominator |
| ProRata.LeftoverBound | core/rewards_logic.go:298-319 | what the floors leave is not negative and, when positive, below the number of nonzero remainders |
| ProRata.PaysExactly | core/rewards_logic.go:261-335 | the pool is paid exactly when some value is positive, and not at all otherwise |
| ProRataFairness.OrderIndependent | core/rewards_logic.go:261-335 | reordering the weights, repeated addresses included, changes nobody's payout |
| ProRataFairness.CreditBounds | core/rewards_logic.go:287-319 | every address gets its floors and at most one unit more per nonzero remainder of its own |
| ProRataFairness.CreditExact | core/rewards_logic.go:298-319 | with one claim per address, exactly the claims in the first leftover places get the extra unit |
| ProRataFairness.FloorOrNext | core/rewards_logic.go:287-319 | with one claim per address, each gets the floor of total times value over the denominator or one more, and one more only over a remainder |
| ProRataFairness.UnpaidAbsent | core/rewards_logic.go:270-281 | a claim without positive value is paid nothing |
| ProRataFairness.Monotone | core/rewards_logic.go:261-335 | a strictly larger value never receives less, equal values differ by at most one unit |
| EpochRewards.SplitConserves | core/rewards/config.go:120-149 | the three pools add up to the emission |
| EpochRewards.ValidatorsExact | core/rewards_logic.go:195-237 | the validator pool is paid out exactly when somebody was selected |
| EpochRewards.ValidatorsEven | core/rewards_logic.go:195-237 | each distinct selected validator gets the equal share, and the odd units go to the smallest addresses |
| EpochRewards.CollectParts | core/rewards_logic.go:337-378 | a pool's awards reach the accounts they name, in that pool's column only, and totals stay the sum of the columns |
| EpochRewards.RewardsSplit | core/rewards_logic.go:195-259 | every account's reward is the sum of what the three apportionments give it |
| EpochRewards.RewardsTotal | core/rewards_logic.go:195-259 | the collected rewards add up to what the three pools paid |
| EpochRewards.PoolsExact | core/rewards_logic.go:195-335 | each pool pays its plan exactly when it has a recipient and nothing otherwise |
| EpochRewards.PayoutsComplete | core/rewards_logic.go:141-193 | the recorded payouts add up to the collected rewards |
| EpochRewards.CreditMints | core/rewards_logic.go:141-193 | crediting creates exactly the recorded payouts |
| EpochRewards.CreditEach | core/rewards_logic.go:141-193 | each account is credited its own reward once, every other account nothing |
| RewardSettlement.SettlementBooks | core/rewards_logic.go:59-139 | the payouts sum to the paid total, which is the increase of all balances, and no pool pays more than its plan |
| RewardSettlement.SettlementCredits | core/rewards_logic.go:59-139 | every balance grows by the account's reward from the three pools and by nothing else |
| RewardSettlement.PayoutsSound | core/rewards_logic.go:141-193 | one positive payout per rewarded account, in address order, each the sum of its three parts |
| RewardSettlement.RepeatExactly | core/rewards_logic.go:59-139 | closing an epoch again, when the closings since its last recording recorded only other epochs, is recorded and paid again if and only if the history is limited and at least that many were recorded since |
| RewardSettlement.RecordedOnce | core/rewards_logic.go:59-139 | no run records an epoch twice that keeps the full history or closes rising epochs |
| RewardSettlement.PrunedPaysTwice | core/rewards_state.go:190-203 | with room for one settlement, closing epochs 1, 2 and 1 pays epoch 1 twice |
| RewardSettlement.RunConserves | core/rewards_logic.go:59-139 | every run creates exactly what its recorded closings pay, pruned or not; with the full history kept, the history records all of it |
| RewardSettlement.HeldExactly | core/rewards_state.go:190-221 | a recorded epoch is in the history at every point of a run if and only if the history is unlimited or fewer than the limit's worth of newer ones are recorded |
| RewardProcessor.UniqueRecipients | core/rewards_logic.go:199-208 | the loop collects the distinct selected validators |
| RewardProcessor.DistributeValidators | core/rewards_logic.go:195-237 | the loops pay the specified awards into the reward map and report their total |
| RewardProcessor.GatherClaims | core/rewards_logic.go:265-284 | the filtering loop keeps the positive values and their sum |
| RewardProcessor.PayFloors | core/rewards_logic.go:285-297 | the first pass pays the floors and notes the remainders |
| RewardProcessor.PayBonus | core/rewards_logic.go:307-319 | the second pass places every unit of the leftover, one per remainder in order |
| RewardProcessor.DistributeProRata | core/rewards_logic.go:261-335 | the whole routine pays the specified awards; its fallback is never entered and the 64-bit conversion loses nothing |
| RewardProcessor.Processor.ApplyRewards | core/rewards_logic.go:141-193 | accounts are credited in address order and the payouts listed as specified |
| RewardProcessor.Processor.FindSettlement | core/rewards_state.go:213-221 | the search finds an epoch exactly when the history holds it |
| RewardProcessor.Processor.Settle | core/rewards_logic.go:59-139 | closing an epoch takes the object to the specified ledger |
| DelegationRuns.RunExcess | core/state_transition.go:2647-2936 | for every validator, stake minus the lock delegated to it is the same after every run |
| DelegationRuns.NeverUnderflows | core/state_transition.go:2752-2867 | from a state where no validator has less stake than is delegated to it, no run ends in a stake underflow |
| DelegationRuns.RunWorth | core/state_transition.go:2647-2936 | every account's balance plus lock plus pending unbonding is preserved by every run |
| DelegationRuns.RunIds | core/state_transition.go:2752-2936 | pending identifiers stay distinct and below the next one |
| DelegationRuns.PaidAsIssued | core/state_transition.go:2752-2936 | a claim under the identifier an undelegation issued pays, in any later run, the amount undelegated, and not before 72 hours have passed |
| DelegationRuns.StepPending | core/state_transition.go:2647-2936 | a step takes a pending entry away if and only if it is a paid claim of its owner under its identifier |
| DelegationRuns.RunPending | core/state_transition.go:2647-2936 | over every run a pending entry stays pending if and only if no step of the run paid it |
| DelegationRuns.PaidExactly | core/state_transition.go:2752-2936 | after an undelegation and any run, a claim under its identifier pays if and only if it is not paused, 72 hours have passed and the run did not already pay it |
| DelegationRuns.ClaimedOnce | core/state_transition.go:2869-2936 | an entry that was claimed is never claimed again |
| DelegationRuns.Claimable | core/state_transition.go:2869-2936 | a pending entry past its release time is paid in full to its owner |
| StakeAccrual.CheckpointsLose | core/state_transition.go:3222-3246 | rounding at k checkpoints credits at most the one-shot amount and loses at most k - 1 units |
| StakeAccrual.AccrueInSteps | core/state_transition.go:3222-3246 | the same for accruing an account with constant stake along a non-decreasing index |
| StakeAccrual.StakeChangeAccrues | core/state_transition.go:2647-2936 | whenever a step changes an account's stake, the old stake was accrued up to the current index first |
| StakeAccrual.IndexMonotone | core/rewards/engine.go:80-122 | the global index never falls, whatever timestamps arrive |
| StakeAccrual.IndexInSteps | core/rewards/engine.go:80-122 | updating it k times instead of once loses at most k - 1 units |
| StakingProcessor.SearchUnbonding | core/state_transition.go:2892-2910 | the loop finds the first entry with the identifier, or none |
| StakingProcessor.Processor.AccrueAccount | core/state_transition.go:3222-3246 | the accrual computes the specified account |
| StakingProcessor.Processor.Delegate | core/state_transition.go:2647-2750 | delegating takes the accounts to the specified state and reply, errors included |
| StakingProcessor.Processor.Undelegate | core/state_transition.go:2752-2867 | undelegating does |
| StakingProcessor.Processor.Claim | core/state_transition.go:2869-2936 | claiming an entry does |
| RewardClaims.AllowedFits | core/state_transition.go:3022-3049 | the cap lets a gain through in full if and only if minting it stays within the cap, and never lets one exceed it |
| RewardClaims.ClaimMatchesPreview | core/node.go:3438-3470 | a claim mints what the preview reports if and only if nothing is payable, there is no cap or the amount fits under it; otherwise less; the claimer's index never passes the global one |
| RewardClaims.ClaimBooks | core/state_transition.go:3051-3066 | a claim books exactly what it mints, to its own year only |
| RewardClaims.RunBooks | core/state_transition.go:2938-3099 | over every run, coins created equal emissions booked |
| RewardClaims.RunCapped | core/state_transition.go:3012-3062 | when every claim of a year has a positive cap, that year's emission never exceeds the larger of the largest cap and where it started |
| RewardClaims.CapMint | core/state_transition.go:3022-3049 | the branches over the headroom compute the specified gain and mint |
| RewardClaims.Claims.ClaimRewards | core/state_transition.go:2938-3099 | the claim takes the object to the specified state and reply, errors included |
| Loyalty.ScaledSumBounds | core/state_transition.go:676-723 | the scaled rewards fit the scaled demand and miss it by less than one unit per reward |
| Loyalty.RatioFits | core/state_transition.go:676-686 | the ratio keeps the scaled rewards within the budget and, when it pro-rates, leaves less than one unit per reward |
| Loyalty.LoopIsPlain | core/state_transition.go:714-761 | the budget clamp never binds and the early exits skip nothing: the loop pays by the plain rule |
| LoyaltyRuns.PlainPays | core/state_transition.go:714-761 | the plain rule pays the scaled rewards, as far as the treasury goes |
| LoyaltyRuns.PlainTouches | core/state_transition.go:740-754 | the accounts rewritten are exactly the recipients of a positive share reached before the funds run out |
| LoyaltyRuns.SettlementBounds | core/state_transition.go:636-783 | a settlement pays at most the budget and the treasury, nearly all of the budget when it pro-rates, and all of the demand when both suffice |
| LoyaltyRuns.ConservedWhen | core/state_transition.go:710-783 | a settlement conserves coins if and only if no reward that names the treasury has a positive share and is reached before the funds run out; otherwise everything paid is new |
| LoyaltyRuns.ConservedWithoutTreasury | core/state_transition.go:710-783 | in particular when no reward names the treasury |
| LoyaltyRuns.TreasuryMints | core/state_transition.go:763-774 | a concrete reward to the treasury that creates coins |
| LoyaltyRuns.RunCapped | core/state/loyalty_engine.go:163-268 | over every run a day never pays more than the largest budget it was given |
| LoyaltyRuns.RunWithinProposed | core/state/loyalty_engine.go:138-187 | nor more than was proposed for the day |
| LoyaltyProcessor.Processor.SumPending | core/state/loyalty_engine.go:42-51 | the loop sums the queue |
| LoyaltyProcessor.Processor.PayPending | core/state_transition.go:710-761 | the paying loop computes the specified till |
| LoyaltyProcessor.Processor.EndBlockRewards | core/state_transition.go:636-813 | ending a block takes the object to the specified state |
| PosLanes.ReservedIsCeiling | consensus/proposer.go:30-47 | the reservation is the share of the block rounded up, never more than the block |
| PosLanes.Classify | mempool/priority.go:53-85 | the loop splits the transactions into the two lanes in arrival order |
| PosLanes.Takes | mempool/priority.go:97-130 | the shares of the lanes come out as specified; the branch that hands spare slots back to the normal lane is never entered |
| PosLanes.Schedule | mempool/priority.go:87-136 | the scheduler computes the specified order and usage |
| PosLanes.ScheduleKeepsLanes | mempool/priority.go:87-136 | the result is a permutation of both lanes that keeps each lane complete and in order |
| PosLanes.WindowGuarantee | mempool/priority.go:87-136 | the block's slots are all filled, hold the reserved share of POS transactions or all there are, and more only when no normal transaction is left out |
| Mempool.PickDistinct | core/node.go:1899-1911 | nothing already proposed is handed out and nothing twice in one call |
| Mempool.RunHeld | core/node.go:1832-2003 | a proposed key stays proposed until it is requeued, committed or expires |
| Mempool.HandedOnce | core/node.go:1832-2003 | a key handed out is not handed out again, in that call or any later one, until then |
| MempoolBounds.RunKeeps | core/node.go:1669-1766 | every run keeps the count, byte and per-sender limits and at most one pooled mint per invoice |
| MempoolBounds.CommitClears | core/node.go:1953-2003 | after a commit neither pool nor proposed set knows a committed key |
| MempoolBounds.HandedFromPool | core/node.go:1847-1911 | only pooled transactions are handed out, and no expired mint |
| MempoolNode.Node.FindInvoice | core/node.go:1677-1689 | the loop finds a pooled mint with the invoice exactly when there is one |
| MempoolNode.Node.Measure | core/node.go:1695-1719 | the loop totals the pool and one sender's part of it |
| MempoolNode.Node.AddTransaction | core/node.go:1635-1766 | adding takes the object to the specified state and reply, errors included |
| MempoolNode.Node.DropExpired | core/node.go:1847-1879 | the filter drops expired mints and forgets that they were proposed |
| MempoolNode.Node.HandOut | core/node.go:1899-1911 | the loop hands out what is not proposed yet and marks it |
| MempoolNode.Node.GetMempool | core/node.go:1832-1912 | handing out takes the object to the specified state and result |
| MempoolNode.Node.RequeueTransactions | core/node.go:1935-1951 | requeueing does |
| MempoolNode.Node.MarkCommitted | core/node.go:1953-2003 | committing does |
| TokenBuckets.AllowKeeps | p2p/ratelimit.go:39-68 | tokens stay between zero and the capacity whatever the clock does |
| TokenBuckets.AllowedBound | p2p/ratelimit.go:39-68 | what is let through was in the bucket at the first call or has flowed in since |
| TokenBuckets.WindowBound | p2p/ratelimit.go:39-68 | any window lets through at most the capacity plus rate times its length |
| TokenBuckets.TokenBucket.constructor | p2p/ratelimit.go:19-37 | a new bucket is full, with the burst raised to one and to the rate |
| TokenBuckets.TokenBucket.RefillNow | p2p/ratelimit.go:57-68 | the refill updates the fields as specified |
| TokenBuckets.TokenBucket.AllowNow | p2p/ratelimit.go:39-55 | a call updates the fields and answers as specified |
| RateLimiter.SweptExact | p2p/ratelimit.go:184-205 | when times never ran backwards, a sweep forgets an address if and only if there is a timeout and the address has been idle for longer |
| RateLimiter.EvictOldestRest | p2p/ratelimit.go:207-219 | making room forgets a prefix of the list, leaves space for one more entry, and forgets nothing without a cap |
| LimiterRuns.OldestGoFirst | p2p/ratelimit.go:207-219 | when times never ran backwards, making room forgets the least recently seen: no entry that stays was seen before one that goes |
| LimiterRuns.RunKeeps | p2p/ratelimit.go:155-231 | in every run list and map hold the same addresses and the cap holds |
| LimiterRuns.RunByAge | p2p/ratelimit.go:155-231 | with times that never run backwards the list stays ordered by last sighting |
| LimiterEviction.FullIsNew | p2p/ratelimit.go:19-68 | a bucket that has refilled answers and continues as a new one |
| LimiterEviction.CoupledAnswers | p2p/ratelimit.go:155-205 | with a timeout that lets an empty bucket refill, every run is answered as by a limiter that never forgets |
| LimiterWitness.ShortTimeoutTells | p2p/ratelimit.go:155-205 | for every shorter timeout there is a run of one address that is answered differently |
| LimiterWitness.EvictionInvisible | p2p/ratelimit.go:155-205 | without a cap, eviction changes no answer of any run if and only if rate times timeout covers the capacity |
| IpRateLimiter.Limiter.EvictIdleNow | p2p/ratelimit.go:184-205 | the loop sweeps the table as specified |
| IpRateLimiter.Limiter.EvictOldestNow | p2p/ratelimit.go:207-219 | the loop makes room as specified |
| IpRateLimiter.Limiter.TouchEntry | p2p/ratelimit.go:172-181 | the entry moves to the back and its own bucket, no other, answers |
| IpRateLimiter.Limiter.AllowNow | p2p/ratelimit.go:155-182 | a call takes the object to the specified table and answer and keeps list and map in agreement |
| NonceGuard.OverflowExact | p2p/nonce_guard.go:94-105 | the cap keeps exactly as many of the newest keys as fit, with their records |
| NonceGuard.RemoveExpiredOnly | p2p/nonce_guard.go:107-123 | only expired keys are swept |
| NonceGuardRuns.RunKeeps | p2p/nonce_guard.go:59-138 | in every run list and map hold the same keys and the size never exceeds the cap |
| NonceGuardRuns.ReplayRejected | p2p/nonce_guard.go:59-138 | an accepted nonce is rejected after every run that sweeps nothing at or after its expiry and accepts fewer newer nonces than the cap |
| NonceGuardRuns.SweepForgets | p2p/nonce_guard.go:107-123 | with observation times that never run backwards, a sweep leaves no expired key |
| NonceGuardRuns.StepExact | p2p/nonce_guard.go:59-138 | when observation times never ran backwards, each step keeps a key if and only if it neither reaches its expiry nor pushes it past the cap |
| NonceGuardRuns.RememberedExactly | p2p/nonce_guard.go:59-138 | over every run with observation times that never run backwards, repeated offers included, a key is remembered at every point if and only if no step sweeps its expiry or pushes it past the cap |
| HandshakeGuard.NonceTracker.EvictOverflowNow | p2p/nonce_guard.go:94-105 | the loop computes the specified guard |
| HandshakeGuard.NonceTracker.RemoveExpiredNow | p2p/nonce_guard.go:107-123 | the loop computes the specified guard |
| HandshakeGuard.NonceTracker.RememberNow | p2p/nonce_guard.go:59-92 | remembering takes the object to the specified guard and answer |
| HandshakeGuard.NonceTracker.SweepNow | p2p/nonce_guard.go:154-160 | a sweep takes the object to the specified guard |
| HandshakeGuard.NonceTracker.SetMaxEntries | p2p/nonce_guard.go:199-207 | changing the cap does; a cap that is not positive is ignored |
| ChainKeys.DecodeEncode | core/blockchain.go:41-49 | big-endian encoding and decoding are inverse on numbers that fit |
| ChainKeys.EncodeDecode | core/blockchain.go:41-49 | and on byte strings |
| ChainKeys.Int64RoundTrip | core/blockchain.go:51-59 | signed timestamps survive the two's complement encoding |
| ChainKeys.KeysApart | core/blockchain.go:32-73 | no two database keys of the chain share their bytes |
| ChainKeys.PutRepresents | core/blockchain.go:32-73 | a write under a key's bytes changes what is stored under that key and under no other |
| ChainBytes.RunShows | core/blockchain.go:32-73 | over every run on the table of byte strings, failed writes and other users' data included, that table holds what the store by keys does |
| ChainBytes.LoadSame | core/blockchain.go:122-159 | reading the byte strings back yields what reading the keys does |
| ChainBytes.RawReopensExactly | core/blockchain.go:85-235 | the condition of ReopensExactly, for the table of byte strings |
| ChainRuns.ReopenSame | core/blockchain.go:122-159 | reopening a store in step with memory rebuilds tip, height, height index, genesis, chain id and last timestamp |
| ChainRuns.AddSyncs | core/blockchain.go:205-231 | a block that is added brings store and memory in step, also after earlier failed writes |
| ChainRuns.FailedKeepsIndex | core/blockchain.go:205-225 | a failed write leaves the stored index of the blocks in memory intact |
| ChainLinks.AddLinks | core/blockchain.go:162-235 | adding a block leaves every height with its own block, linked to its predecessor and with a matching transaction root, if and only if the block's hash is not that of an earlier block |
| ChainLinks.RunIndexed | core/blockchain.go:162-235 | in every run, failed writes included, the heights in memory are those of the store |
| ChainLinks.RunLinked | core/blockchain.go:162-259 | in every run that reuses no block hash, and in which nobody else writes under one, each block names its predecessor |
| ChainLinks.FoundedSynced | core/blockchain.go:412-453 | a new chain is in step with its store and linked |
| ChainLinks.ReopensExactly | core/blockchain.go:85-235 | after every run that reuses no block hash, failed writes included, reopening rebuilds the chain in memory if and only if no block stopped after its first write since the last one that was added |
| ChainLinks.RunIsNew | core/blockchain.go:162-235 | unless two of the headers offered hash alike, no run reuses a block hash, other users' writes included |
| ChainLinks.CollisionFreeRuns | core/blockchain.go:85-235 | so every run from a new chain reopens exactly unless a block stopped part-way, and stays linked when nobody else writes under a block's hash |
| ChainLinks.RunReopens | core/blockchain.go:85-235 | when no write fails, reopening rebuilds the chain in memory after every run from a new chain, whatever the hashes |
| ChainLinks.AddRestores | core/blockchain.go:162-235 | whatever writes failed before it, a block that is added makes reopening exact again |
| ChainCrash.CrashExact | core/blockchain.go:205-225 | what reopening yields after each prefix of a block's writes, and exactly when that is the chain before or after the block |
| ChainCrash.FoundingCrashExact | core/blockchain.go:430-450 | what opening yields after each prefix of the genesis writes: the new chain if and only if at most one or at least five of the seven were made, and otherwise an error |
| Blockchain.LoadHeights | core/blockchain.go:135-141 | the loop with its 64-bit counter reads the specified index, or the first height that is missing |
| Blockchain.Open | core/blockchain.go:122-159 | the reload path computes the specified result, its errors included |
| Blockchain.PutGenesis | core/blockchain.go:430-450 | the seven writes of a genesis block, stopping at the first that fails |
| Blockchain.Found | core/blockchain.go:85-120 | founding yields the specified store and memory, or what was written and no chain |
| Blockchain.Ledger.PutBlock | core/blockchain.go:205-225 | the six writes of a block, stopping at the first that fails |
| Blockchain.Ledger.Add | core/blockchain.go:162-235 | adding takes the object to the specified store, memory and outcome, every error included |
| Blockchain.Ledger.BlockByHeight | core/blockchain.go:238-259 | the lookup by height returns the specified block |

## Left out

- Open: its `requires` excludes only stored words shorter than eight bytes, on which the source panics, and height 2^64 - 1 with no height missing, on which its loop does not end.
- AddTransaction: the sender's nonce register and quota are one boolean parameter.
- EndBlockRewards: the day's cap, which the source computes from fees and a guarded price, is a parameter.
- DistributeProRata: its `requires`, fewer than 2^64 weights, holds of every Go slice.
- ProRataFairness.Monotone: states fairness for one claim per address; with repeated addresses CreditBounds and OrderIndependent hold.
- EVM execution, sponsorship, the trie, RLP and JSON encodings, signatures: foreign to the accounting.
- Storage errors of the state manager; only the chain store's writes can fail in the model.
- Locks and goroutines: every operation is one step, as under the source's mutexes.
- 64-bit wrap-around of timestamps, lock nonces and unbonding identifiers.
- Floating-point rounding of token counts, and changing a bucket's rate while it is in use.
- The limiter's and the guard's linked lists are sequences of keys; element pointers and their aliasing are not modelled.
- Canonical forms and hashing of handshake nonces: a fingerprint is a number, and the empty fingerprint is zero.
- The mempool's sender nonce table, quotas, `SetMempoolLimit`, arrival times and nil entries of the pool.
- Liveness of the mempool: handed-out transactions that do not fit a block stay proposed until they are requeued.
- How emission, epoch weights and validator selection are computed; they are inputs of a settlement.
- Loyalty's price guard, which computes the daily cap.
- The list of owners with a bonded total kept beside the totals.
- Loading of genesis files, rebuilding of the genesis state, and queries over ranges of blocks.
- Events, metrics, RPC handlers, configuration and governance.
