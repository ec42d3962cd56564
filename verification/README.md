# Verification model of the Sorofy verifier network

Sorofy rebuilds Soroban contracts from source, lets staked verifiers attest the result on chain, and
opens a deposit gate for contracts whose bytes a quorum agreed on. This project models the parts
that decide whether money moves or is taken, and proves what they promise.

- **Two contracts as one machine** (`VrfyToken`, `Registry`, `RegistryContract`, `System`). The stake
  token and the registry are classes whose fields are the contracts' storage. Each entry point is
  proved against a function on the stored values; a host undoes a transaction that did not return. A
  step of the machine is any entry point of either contract, authorized by any addresses, or the
  ledger moving on; theorems speak of every run of steps.
- **What runs keep** (`Tally`, `TokenFacts`, `Solvency`, `Allowances`, `Filings`, `Verdicts`,
  `Slashing`, `SlashMath`, `Exposure`): conservation, solvency, permanent verdicts, slashing that
  reaches only a strict minority, stake that stays exposed until the claims it backs have closed.
  Each operation also has its exact condition of success, and `Attainable` builds the run in which a
  quorum attests and a claim is verified.
- **The attestation outbox** (`Outbox`): the queue, its worker, transactions that land unseen or late,
  and the registry they land in, as one transition system; at-least-once delivery becomes
  exactly-once effect. `Provenance` joins it to the jobs: what stands on chain in the verifier's name
  comes from a report.
- **Rate limiter and jobs** (`Limiter`, `Jobs`): a token bucket that is exactly a sliding-window bound
  and whose evictions cannot be observed; the life of a job between two semaphores, a database row
  and the counters.
- **The gate** (`Gate`, `Scan`): which claims are asked about and what opens it, put on top of the
  registry and of the events it publishes, as bytes, so that an open gate is a statement about the
  chain, now and later.
- **Encodings** (`Preimage`, `Xdr`, `XdrReader`, `Amounts`, `Staging`): three builders of one claim
  layout, the XDR reader (RFC 4506, sections 4.10, 4.11, 4.13, 4.15 and 4.19), decimal amounts, and
  the re-rooting of source archives (step 4 of SEP-58's verification process).

`dafny verify dfyconfig.toml` checks everything.

## Assumptions

- The registry's own address never authorizes a call from outside (`System.External`): a contract
  authorizes only by calling. Any other address may authorize anything.
- Contract arithmetic aborts on overflow, as `contracts/Cargo.toml` builds it. Sums are unbounded in
  the model and the i128 and u32 limits are explicit checks.
- Hash functions, text decoding, UTF-8 validity and property-name coercion are parameters; theorems
  hold for all of them, or say what they need.
- An archive is unpacked entry by entry: symbolic links met on the way to an entry are followed, at
  most forty; parents in a hard link's target are taken off its text first; what leads out of the
  directory changes nothing in it.
- Limiter times are exact reals and do not decrease; tokens are exact reals.

## Where the code differs from what is said of it

- `crates/api/src/attest.rs:303-305` expects the registry to answer a retry of a landed attestation
  with `AlreadyAttested`. The registry checks activity and the window first
  (`contracts/registry/src/lib.rs:301-312`), so that answer comes exactly while both still hold
  (`Delivery.RetryOfALanding`, and `Delivery.LateRetryIsRejected` for a run that ends otherwise).
- `crates/api/src/attest.rs:236-238` says a `false` from `attempt` means the row is unchanged. If the
  reschedule is written and only reading the count back fails (`crates/api/src/db.rs:516-533`), the
  row has changed (`OutboxContract.Attestor.Attempt`, `OutboxContract.RescheduledYetNotRecorded`).
- `crates/api/src/server.rs:801-820` enqueues the attestation even when the row's final write failed;
  the next start then marks that attested job as failed (`JobsSpec.QueuedYetErrored`, and
  `JobsSpec.OnlyReportsAreQueued` for exactly when).
- With a burst below one token the limiter announces a wait that never suffices
  (`LimiterSpec.WaitIsExact`). The configured burst is ten.
- A claim whose window would end beyond the last u32 ledger has no readable verdict
  (`Verdicts.UnreadableIff`).
- `web/gate/lib/protocol.js:41-45` prints no readable amount for an asset without decimals
  (`Amounts.RoundTripIff`).
- `web/gate/lib/xdr.js:85` loses a map entry named `__proto__` (`Xdr.MapIsWholeIff`).
- The length casts of the claim layout make it ambiguous from 2^32 bytes on
  (`ClaimLayout.LongFlagsCollide`); requests that long are not accepted.
- The one-top-directory check counts names decoded with replacement, so directories that are not
  UTF-8 can count as one and be merged (`StagingSpec.TwoTopsCanMerge`, `StagingSpec.AcceptedHasOneTopIff`).
- Hard links are re-rooted without a look at the name they begin with, and their targets are not
  checked for parents. One that points outside the tree is staged as one that points into it
  (`StagedTree.HardLinkElsewhereIsCaptured`); one that climbs out and returns by the old name is staged
  as one that points to nothing (`StagedTree.ClimbingHardLinkBreaks`).
- A path through a symbolic link that climbs out and returns by the old name lands outside the staged
  tree (`StagedTree.ClimbingDirectoryLinkMisleads`). `StagedTree.StagingPreservesTheTreeIff` says
  exactly which archives keep their tree, and `StagedTree.StagingPreservesTheTree` gives a condition on
  the archive's text.
- The remark that renaming the top leaves symbolic links correct (`crates/verifier-core/src/source.rs:466-468`)
  fails for relative targets that climb above the top and return by its old name
  (`StagedTree.SymlinkSurvivesIff`).

## Model

| member | source | states |
|---|---|---|
| `Tally.TallyLoop` | contracts/registry/src/lib.rs:529-562 | The nested loop returns, for every list of attested hashes, its length, the number of different hashes, the highest multiplicity, and the first hash that attains it. |
| `Tally.TallyMeans` | contracts/registry/src/lib.rs:529-562 | The tally specification used by the verdict and by slashing satisfies the same independent description. |
| `Tally.TallyUnique` | contracts/registry/src/lib.rs:529-562 | That description has one answer for every list, so no other counting fits it. |
| `Tally.CountsIgnoreOrder` | contracts/registry/src/lib.rs:534-553 | Total, distinct and top count are the same for every order of arrival. |
| `Tally.OneDistinctIsUnanimous` | contracts/registry/src/lib.rs:371-372 | `distinct == 1` exactly for a non-empty list whose hashes are all equal, and the top hash is then that hash. |
| `Tally.MajorityIsUnique` | contracts/registry/src/lib.rs:425 | A hash held by a strict majority is the only such hash and is the top hash in every order of arrival. |
| `TokenContract.VrfyToken.ReadBalance` | contracts/vrfy-token/src/balance.rs:4-14 | A missing balance reads as zero. |
| `TokenContract.VrfyToken.ReceiveBalance` | contracts/vrfy-token/src/balance.rs:24-27 | Adds to one balance, or aborts on i128 overflow; nothing else changes. |
| `TokenContract.VrfyToken.SpendBalance` | contracts/vrfy-token/src/balance.rs:29-35 | Subtracts from one balance, or aborts when it is too small. |
| `TokenContract.VrfyToken.ReadAllowance` | contracts/vrfy-token/src/allowance.rs:4-21 | An allowance past its last ledger, or never given, reads as zero. |
| `TokenContract.VrfyToken.WriteAllowance` | contracts/vrfy-token/src/allowance.rs:23-49 | Stores an allowance; a positive one that has already expired aborts. |
| `TokenContract.VrfyToken.SpendAllowance` | contracts/vrfy-token/src/allowance.rs:51-65 | Takes an amount off a live allowance, or aborts when it is too small. |
| `TokenContract.VrfyToken.Mint` | contracts/vrfy-token/src/contract.rs:52-63 | The stored state after the in-place updates is the specified one; only the administrator mints. |
| `TokenContract.VrfyToken.SetAdmin` | contracts/vrfy-token/src/contract.rs:65-75 | Only the administrator hands over. |
| `TokenContract.VrfyToken.Approve` | contracts/vrfy-token/src/contract.rs:94-113 | The owner sets an allowance. |
| `TokenContract.VrfyToken.Transfer` | contracts/vrfy-token/src/contract.rs:122-141 | Spend, then receive, on the balances as they stand in between (self-transfers included). |
| `TokenContract.VrfyToken.TransferFrom` | contracts/vrfy-token/src/contract.rs:143-163 | Spends the allowance, then the balance, then credits the receiver. |
| `TokenContract.VrfyToken.Burn` | contracts/vrfy-token/src/contract.rs:165-176 | Spends the balance of an authorizing holder. |
| `TokenContract.VrfyToken.BurnFrom` | contracts/vrfy-token/src/contract.rs:178-190 | Spends allowance and balance. |
| `TokenFacts.TransferEffect` | contracts/vrfy-token/src/contract.rs:122-141 | A transfer moves exactly the amount from one balance to the other, leaves every other balance and the sum of all alone, and changes nothing when sender and receiver are the same. |
| `TokenFacts.TransferExact` | contracts/vrfy-token/src/contract.rs:122-141 | While the supply fits an i128, an authorized transfer succeeds if and only if the amount is non-negative and covered. |
| `TokenFacts.BurnEffect` | contracts/vrfy-token/src/contract.rs:165-176 | A burn lowers one balance and the sum of all by exactly the amount. |
| `TokenFacts.SpendAllowanceEffect` | contracts/vrfy-token/src/allowance.rs:51-65 | Spending an allowance lowers it by exactly the amount, never below zero, only while it is live, and never trips the expiry check of the write. |
| `TokenFacts.TransferFromEffect` | contracts/vrfy-token/src/contract.rs:143-163 | A drawn transfer is a transfer plus a spent allowance, and no other allowance moves. |
| `TokenFacts.BurnFromEffect` | contracts/vrfy-token/src/contract.rs:178-190 | A drawn burn is a burn plus a spent allowance. |
| `TokenFacts.SpendersExact` | contracts/vrfy-token/src/contract.rs:122-190 | While the supply fits an i128, transfers, burns and both drawn forms succeed if and only if the right party authorized them and balance, and live allowance where used, cover the amount. |
| `TokenFacts.ApproveExact` | contracts/vrfy-token/src/contract.rs:94-113 | An approval succeeds if and only if the owner authorized it, the amount is not negative and a positive one has not expired; it stores exactly that amount and last ledger for that pair alone. |
| `TokenFacts.AllowanceReads` | contracts/vrfy-token/src/allowance.rs:4-21 | An allowance is worth its amount through its last ledger and nothing after it. |
| `TokenFacts.MintExact` | contracts/vrfy-token/src/contract.rs:52-63 | A mint succeeds if and only if the administrator authorized it and the receiver has room, and credits the receiver alone. |
| `TokenFacts.SetAdminExact` | contracts/vrfy-token/src/contract.rs:65-75 | Handing over succeeds if and only if the administrator authorized it, and sets exactly the new one. |
| `Chain.WidthsAre` | contracts/Cargo.toml:25 | i128 and u32 results are kept if and only if they fit, with both limits written out, and abort otherwise. |
| `Allowances.AllowanceIsABudget` | contracts/vrfy-token/src/contract.rs:143-190 | Over every run without a new approval by the same owner for the same spender, what is drawn equals the fall of the stored allowance, is at most what was approved, and is nothing once it has expired. |
| `Allowances.RegistryKeepsAllowances` | contracts/registry/src/lib.rs:215-468 | No entry point of the registry changes any allowance. |
| `RegistryContract.Registry.CheckConfig` | contracts/registry/src/lib.rs:179-210 | Accepts if and only if the stake is positive, the quorum at least 3, the window positive and at most the unbonding period, and the slash between 1 and 10000 basis points. |
| `RegistryContract.Registry.ReadStake` | contracts/registry/src/lib.rs:497-503 | A missing record reads as zeros. |
| `RegistryContract.Registry.Stake` | contracts/registry/src/lib.rs:215-233 | Result and the whole two-contract state equal the specification; an error leaves everything as it was. |
| `RegistryContract.Registry.RequestUnstake` | contracts/registry/src/lib.rs:237-259 | As above; one release ledger is kept for the whole unbonding balance and every request overwrites it. |
| `RegistryContract.Registry.Withdraw` | contracts/registry/src/lib.rs:262-283 | As above, with the amount returned. |
| `RegistryContract.Registry.Attest` | contracts/registry/src/lib.rs:291-342 | As above; a refusal leaves every record as it was without any rollback, although the window is opened before the duplicate check. |
| `RegistryContract.Registry.ReadAttestations` | contracts/registry/src/lib.rs:505-525 | The loop returns the stored records of the listed attesters, in order. |
| `RegistryContract.Registry.ConsensusOf` | contracts/registry/src/lib.rs:356-380 | The verdict computed by the loops is the specified one. |
| `RegistryContract.Registry.CheckSlash` | contracts/registry/src/lib.rs:412-441 | The checks before a slash answer as specified, in the specified order. |
| `RegistryContract.Registry.Slash` | contracts/registry/src/lib.rs:406-468 | Result and two-contract state equal the specification. |
| `RegistryContract.Registry.TakeShare` | contracts/registry/src/lib.rs:443-458 | The share is taken from the active stake first, the mark is set and the tokens are burned. |
| `RegistryContract.Host.Execute` | contracts/registry/src/lib.rs:178-469 | Any transaction on the two objects ends in the state the transition system steps to: what it wrote is kept if it returned, and undone otherwise. |
| `System.StepFixed` | contracts/registry/src/lib.rs:178-469 | No transaction changes parameters, turns the clock back, files anything unless it attests, or marks anyone slashed unless it slashes. |
| `System.TokenTransactions` | contracts/vrfy-token/src/contract.rs:52-190 | Each token transaction goes through if and only if the token's own entry point does with the same arguments, and leaves the token as that does and the registry alone. |
| `Solvency.EveryStepAccounts` | contracts/vrfy-token/src/contract.rs:52-190 | For every transaction by anyone: the supply changes by what it minted and burned, and the registry's surplus over its debts by what was given to it directly. |
| `Solvency.SupplyIsMintedMinusBurned` | contracts/vrfy-token/src/balance.rs:24-35 | After every run all balances are non-negative and add up to minted minus burned. |
| `Solvency.RegistryIsSolvent` | contracts/registry/src/lib.rs:215-283 | After every run the registry's token balance is the sum of all active and unbonding stakes plus what was given to it directly; each stake is covered; no allowance from the registry is positive. |
| `Solvency.StakeExact` | contracts/registry/src/lib.rs:215-233 | Staking succeeds if and only if the verifier authorized a positive amount it holds; it moves that amount and adds it to the active stake, and changes nothing else. |
| `Solvency.RequestUnstakeExact` | contracts/registry/src/lib.rs:237-259 | Unstaking succeeds if and only if the verifier authorized a positive amount it has staked and the release fits a u32; each refusal if and only if its condition holds; the whole new stake is stated. |
| `Solvency.WithdrawPaysOut` | contracts/registry/src/lib.rs:262-283 | In every solvent state an authorized withdrawal answers with one of the two refusals, each exactly when it applies, or pays out the whole unbonding amount. |
| `Solvency.SlashIsCovered` | contracts/registry/src/lib.rs:443-458 | In every solvent state an allowed slash burns the share, refuses because the share is nothing, or overflows on a stake above `i128::MAX / 10000`; it never lacks tokens. |
| `Solvency.NoOverflow` | contracts/registry/src/lib.rs:443-452 | While the supply is at most `i128::MAX / 10000` the only transaction that can overflow an i128 is a mint that takes its receiver beyond the maximum. |
| `Filings.FilingsAreCoherent` | contracts/registry/src/lib.rs:305-332 | In every reachable state, for every claim: opened if and only if somebody attested; the attester list has no duplicates and is exactly the set of verifiers with a record; ledgers ascend inside the window from its opening; reading drops nothing. |
| `Filings.StepCoherent` | contracts/registry/src/lib.rs:305-332 | Every transaction keeps that. |
| `Filings.AttestEffect` | contracts/registry/src/lib.rs:291-342 | A successful attestation comes from an authorized, active verifier not yet on the list, inside an open window, and adds one record. |
| `Filings.AttestExact` | contracts/registry/src/lib.rs:298-319 | An attestation succeeds if and only if its verifier authorized it, is active and not on the list, and the window, if open, has not ended; each refusal and each abort if and only if its own condition holds. That others have opened the claim does not stand in the way. |
| `Filings.AttestAdds` | contracts/registry/src/lib.rs:313-332 | It leaves the verifier at the end of the list with its hash and ledger, the window opened if it was not, and everything else as it was. |
| `Attainable.VerifiedIsReached` | contracts/registry/src/lib.rs:291-380 | From every deployment with room for a quorum of minimum stakes and one window there is a run in which a quorum stakes and attests and the claim reads Verified. |
| `Filings.RunExtends` | contracts/registry/src/lib.rs:305-332 | In every run records are only added, only while the window is open, and never altered. |
| `Filings.ReadsAll` | contracts/registry/src/lib.rs:505-525 | Reading a coherent claim gives one record for each listed attester, in order. |
| `Verdicts.VerdictMeans` | contracts/registry/src/lib.rs:356-380 | Each verdict of a closed claim without counting: Insufficient below the quorum; Verified when a quorum attested and all filed the claim's hash; Mismatch when all filed one other hash; Disputed when two differ. Each is an if-and-only-if. |
| `Verdicts.ReadingIff` | contracts/registry/src/lib.rs:358-368 | NoClaim if and only if nobody attested, Open if and only if the window is running, a final verdict if and only if it has ended. |
| `Verdicts.CountsAreTrue` | contracts/registry/src/lib.rs:364-378 | The counts in Open, Insufficient and Disputed are the number of attesters, of different hashes filed, and the most that filed one. |
| `Verdicts.VerdictIsPermanent` | contracts/registry/src/lib.rs:356-380 | Over every run: from NoClaim a final verdict is reached only through Open; an open claim stays open with no fewer attestations or becomes final; a final verdict is the same after anything anyone does. |
| `Verdicts.NoClaimOnlyOpens` | contracts/registry/src/lib.rs:307-314 | One transaction takes a claim out of NoClaim if and only if it is its first attestation, and then to Open with one attestation, or to an unreadable verdict if its window would pass the last u32 ledger. |
| `Verdicts.FinalOnlyThroughOpen` | contracts/registry/src/lib.rs:367-379 | In every run from NoClaim to a final verdict the claim was open in between. |
| `Verdicts.UnreadableIff` | contracts/registry/src/lib.rs:367 | Reading aborts if and only if the window would end beyond the last u32 ledger, and is never refused. |
| `Verdicts.ClosedIsFrozen` | contracts/registry/src/lib.rs:307-312 | Nothing about a closed claim's attestations changes in any run. |
| `Verdicts.OneDissentRulesOutVerified` | contracts/registry/src/lib.rs:371-373 | One attestation that differs from the claim's hash means no later state reads Verified. |
| `Slashing.MaySlashExact` | contracts/registry/src/lib.rs:414-441 | The slash checks pass if and only if the claim is closed with a quorum, a strict majority filed one hash, the verifier filed another, it is not yet marked, and the majority can be doubled in a u32. |
| `Slashing.SlashRefusals` | contracts/registry/src/lib.rs:412-441 | Each refusal of a slash if and only if its own condition holds, in terms of window, quorum, majority, record and mark. |
| `Slashing.OutvotedIsDisputed` | contracts/registry/src/lib.rs:425-436 | Whoever can be slashed attested a claim whose verdict is Disputed. |
| `Slashing.OnlyAMinorityIsSlashed` | contracts/registry/src/lib.rs:425-454 | In every reachable state everyone ever slashed on a claim attested it in its window against a strict majority, and twice their number is less than the number of attesters. |
| `Slashing.SlashedAtMostOnce` | contracts/registry/src/lib.rs:437-441 | After a successful slash every later slash of the same verifier on the same claim, in every run, is refused. |
| `Slashing.SlashesCommute` | contracts/registry/src/lib.rs:443-458 | Two slashes of different verifiers on a claim give the same amounts and the same state in either order. |
| `SlashMath.SlashAmountBounds` | contracts/registry/src/lib.rs:444 | The share is the stake times the basis points over 10000 rounded down, and never more than the stake. |
| `SlashMath.TakeFromExact` | contracts/registry/src/lib.rs:450-452 | Taking a share removes exactly it, leaves both parts non-negative, and touches the unbonding part only once the active part is gone. |
| `SlashMath.ManySlashes` | contracts/registry/src/lib.rs:443-452 | After n shares of T at b basis points, R is left with `R * 10000^n >= T * (10000-b)^n` and `b * R * 10000^n < b * T * (10000-b)^n + 10000^(n+1)`. |
| `Exposure.StakeAfter` | contracts/registry/src/lib.rs:215-283 | What each entry point does to one verifier's stake, field by field, and that it leaves every other verifier's alone. |
| `Exposure.SlashableUntilClose` | contracts/registry/src/lib.rs:237-259 | From an attestation on, over every run: until the claim closes, and then until the verifier withdraws, at least the minimum stake less what was slashed from it since cannot have left. Unbonding stake counts when its release is not before the close. |
| `Exposure.FirstSlashTakesTheMinimumShare` | contracts/registry/src/lib.rs:443-452 | The first slash of a verifier after it attested, before it withdraws past the close, takes at least the share of the minimum stake. |
| `Exposure.SlashedStakeBounds` | contracts/registry/src/lib.rs:443-452 | Over every run in which a verifier adds and withdraws nothing, its stake after n slashes lies between those two bounds, however it moves stake into unbonding in between. |
| `OutboxContract.AttestationTable.EnqueueAttestation` | crates/api/src/db.rs:415-437 | One row for each verification; a repeated call changes nothing and says so. |
| `OutboxContract.AttestationTable.DueAttestation` | crates/api/src/db.rs:442-455 | The due row with the smallest id, or none when none is due. |
| `OutboxContract.AttestationTable.FinishAttestation` | crates/api/src/db.rs:487-505 | Sets status and reason and counts the attempt. |
| `OutboxContract.AttestationTable.AttestationRetryLater` | crates/api/src/db.rs:510-534 | Counts the attempt, reschedules, and returns the new count. |
| `OutboxContract.Attestor.Enqueue` | crates/api/src/attest.rs:154-198 | A report that forms no claim, or a failed insert, queues nothing. |
| `OutboxContract.Attestor.Attempt` | crates/api/src/attest.rs:239-310 | The row afterwards is what the outcome prescribes if it was written and untouched otherwise; success is reported if and only if it was written and, for a row rescheduled, its count was read back. |
| `OutboxContract.RescheduledYetNotRecorded` | crates/api/src/db.rs:510-534 | An input at which the row is rescheduled and the attempt reports failure. |
| `OutboxContract.Attestor.Turn` | crates/api/src/attest.rs:201-232 | A turn takes the oldest due row, and claims progress if and only if its attempt reports success; with nothing due it changes nothing. |
| `OutboxSpec.BackoffIsCappedDoubling` | crates/api/src/attest.rs:313-318 | The clamped shift is `min(5 * 2^(n-1), 300)` seconds for every n >= 1, and never decreases. |
| `OutboxSpec.EnqueueExact` | crates/api/src/db.rs:415-437 | A verification not queued yet gets one row at the end: pending, never attempted, due at once; any other changes nothing. |
| `OutboxSpec.RecordExact` | crates/api/src/attest.rs:239-310 | A recorded attempt leaves its row submitted if and only if it landed, refused with an error if and only if that was the refusal, given up if and only if it was the tenth that came to nothing, and otherwise pending and due exactly once the delay has passed. |
| `OutboxSpec.RecordSpends` | crates/api/src/attest.rs:269-296 | Every recorded attempt lowers the number of attempts the pending rows have left, and a pending row has at most nine. |
| `Delivery.AnswerIsTrue` | crates/api/src/attest.rs:413-435 | Landed means attested now and not before; refused as a duplicate means attested; refused as too late means closed. |
| `Delivery.AnswerExact` | crates/api/src/attest.rs:413-435 | Each answer the worker hears if and only if its condition holds on chain; a landing if and only if the verifier is active, has not attested, and the window is open or not yet opened. |
| `Delivery.FateExact` | crates/api/src/attest.rs:331-361 | An execution, seen or not, happens on chain; only a seen one is reported as what it was; what floats has the same effect when it settles. |
| `Delivery.NoteExact` | crates/api/src/attest.rs:239-310 | Writing down the worker's report leaves the row submitted if and only if it was a landing, rejected if and only if it was a refusal or the tenth failure, and no other row changed. |
| `Delivery.PromptAttemptIsSubmitted` | crates/api/src/attest.rs:201-310 | From every chain on which the verifier can attest, a queued row that is submitted and answered ends as submitted with its claim on chain. |
| `Delivery.NextKeeps` | crates/api/src/attest.rs:239-310 | Every event, of any interleaving, keeps the delivery invariant. |
| `Delivery.ExactlyOnce` | crates/api/src/attest.rs:201-310 | Over every interleaving of enqueues, attempts, unseen and late landings, lost writes and other people's transactions: submitted rows are on chain with their hash, no two carry one claim, a row refused as a duplicate is on chain, the verifier is listed at most once a claim, and a finished row never changes or becomes due. |
| `Delivery.RetriesEnd` | crates/api/src/attest.rs:269-296 | At most ten attempts are recorded for each row ever queued. |
| `Delivery.RowsCanFinish` | crates/api/src/attest.rs:201-310 | From every state, whatever fate each submission meets, if outcomes are written the worker's own steps bring every row to its end, in at most four steps for each attempt left. |
| `Delivery.RetryOfALanding` | crates/api/src/attest.rs:302-306 | A retry of an attestation that landed never lands again; it is answered AlreadyAttested if and only if the verifier is still active and the window still open, and otherwise with the refusal that is checked first. |
| `Delivery.LateRetryIsRejected` | crates/api/src/attest.rs:302-306 | A run from an empty outbox, for every chain on which the verifier can attest, that ends with the row rejected as too late and its claim on chain. |
| `Delivery.ReadyIsReached` | contracts/registry/src/lib.rs:215-233 | Such a chain is a mint and a stake away from deployment. |
| `LimiterContract.RateLimiter.CheckAt` | crates/api/src/server.rs:91-113 | Map and answer after the in-place update are the specified ones. |
| `LimiterContract.RateLimiter.Serve` | crates/api/src/server.rs:86-113 | A limiter that serves a queue gives, request by request, the answers the run lemmas speak of. |
| `LimiterSpec.CheckTakesOneToken` | crates/api/src/server.rs:100-112 | A check changes only the level of its own key, by one token, and only if it is allowed; a refusal changes nobody's level at any later time. |
| `LimiterSpec.AllowedIffEveryWindowFits` | crates/api/src/server.rs:91-113 | A request is allowed if and only if granting it keeps every window, from any earlier grant of that key to now, within the burst plus the refill over the window. |
| `LimiterSpec.RateIsBounded` | crates/api/src/server.rs:70-113 | In every interval the grants of a key are at most the burst plus the refill over it. |
| `LimiterSpec.ServiceRate` | crates/api/src/server.rs:43-48 | With the service's settings: at most ten grants and one more for each second of the interval. |
| `LimiterSpec.EvictionIsInvisible` | crates/api/src/server.rs:96-99 | On every request sequence the evicting limiter answers, waits included, as one that never evicts. |
| `LimiterSpec.MapOutgrowsItsCapOnlyWhenAllAreActive` | crates/api/src/server.rs:93-99 | The map exceeds its cap only if every other tracked bucket is not full. |
| `LimiterSpec.WaitIsExact` | crates/api/src/server.rs:109-112 | After a refusal the key is next allowed exactly once the announced wait has passed; with a burst below one token, never. |
| `JobsContract.Counters.OnAccepted` | crates/api/src/server.rs:146-149 | Submitted and in-flight each go up by one. |
| `JobsContract.Counters.OnFinished` | crates/api/src/server.rs:153-167 | In-flight goes down by one and exactly the counter of the outcome up: verified for a reproduced hash, mismatch for another, error for no report. |
| `JobsContract.VerificationTable.InsertPending` | crates/api/src/db.rs:259-279 | A new pending row with a fresh id. |
| `JobsContract.VerificationTable.Complete` | crates/api/src/db.rs:282-298 | Sets one row's status, and no other. |
| `JobsContract.VerificationTable.Fail` | crates/api/src/db.rs:301-313 | Marks one row as failed. |
| `JobsContract.VerificationTable.FailOrphanedPending` | crates/api/src/db.rs:329-339 | The sweep fails exactly the pending rows and returns how many there were. |
| `JobsContract.Service.StartVerification` | crates/api/src/server.rs:631-690 | Full or unresolved means nothing changed and no permit kept; otherwise one row, one permit and one acceptance. |
| `JobsContract.Service.RunJob` | crates/api/src/server.rs:786-834 | Whatever the build returns and whether or not the write succeeds, both permits are back and the outcome is counted; the row stores verified, mismatch or error as the build ended; the job is queued if and only if its report forms a claim. |
| `JobsSpec.LimitsHold` | crates/api/src/server.rs:631-690 | In every interleaving at most 16 jobs hold permits, at most 2 build, the gauge lies between zero and the held permits, each outcome counter is the number of builds that ended so, and the counters add up but for jobs between two counter operations. |
| `JobsSpec.AdmittedIffRoom` | crates/api/src/server.rs:631-635 | A request is let in if and only if fewer than 16 jobs hold permits. |
| `JobsSpec.StatusesAreTrue` | crates/api/src/server.rs:803-820 | In every interleaving a row says verified only if its build reproduced the hash, and mismatch only if its build reported another. |
| `JobsSpec.WriteStores` | crates/api/src/db.rs:282-313 | The write that ends a job stores verified, mismatch or error if and only if its build ended so, in its own row alone. |
| `JobsSpec.OnlyTheseTouch` | crates/api/src/db.rs:259-313 | Rows change in two places only, a resolved request and the write that ends a job; results, queue and losses in one each. |
| `JobsSpec.PendingMeansLive` | crates/api/src/db.rs:315-339 | A row is pending if and only if exactly one live job is still to write it or its write failed in this process; after the startup sweep none is. |
| `JobsSpec.OnlyReportsAreQueued` | crates/api/src/server.rs:801-820 | A queued job's build returned a report that forms a claim; its row says verified, or mismatch, if and only if the report did and no write of that row was ever lost, and failed if and only if the write was lost in an earlier process. |
| `JobsSpec.QueuedYetErrored` | crates/api/src/server.rs:808-820 | The exception occurs: a run in which a job is queued for attestation and its row ends as failed. |
| `JobsSpec.SettledIsFinal` | crates/api/src/db.rs:282-339 | A row that is no longer pending keeps its status in every continuation, restarts included. |
| `JobsSpec.JobsCanFinish` | crates/api/src/server.rs:786-834 | From every orderly state, whatever each job's build returns and whichever of its calls fail, the live jobs reach their end in at most ten moves each, and every permit is then back. |
| `JobsSpec.JobAlone` | crates/api/src/server.rs:786-834 | In the transition system one job alone goes from waiting for a slot to its end in seven moves, with the effect the sequential run has. |
| `Provenance.NextKept` | crates/api/src/server.rs:786-834 | Jobs and outbox run as one machine, and every event of either keeps where rows, transactions and attestations come from. |
| `Provenance.AttestationsComeFromReports` | crates/api/src/attest.rs:154-198 | In every run each attestation of the service's verifier on chain carries the claim and hash formed by the report of one of its jobs, whose row says verified or mismatch as the report did, unless its write was lost. |
| `GateContract.ClaimsForHash` | web/gate/lib/chain.js:119-136 | The page's claims for one hash, each once, in order of first sight. |
| `GateSpec.DigestsForIsExact` | web/gate/lib/chain.js:119-136 | A digest is found if and only if some event attests the wanted hash under it, and no digest is found twice. |
| `GateSpec.FirstSeenFirst` | web/gate/lib/chain.js:121-135 | More events only add digests at the end. |
| `GateContract.ClaimsFor` | web/gate/lib/gate.js:84-107 | Discovered claims first, the configured build only if it adds a digest, no digest twice. |
| `GateSpec.CandidatesExact` | web/gate/lib/gate.js:84-107 | A digest is asked about if and only if the scan found it or it is the configured build's; its source says events if and only if the scan found it; found ones come first, in order. |
| `GateOnChain.GateAsksWhatItShould` | web/gate/lib/gate.js:34-107 | Whatever the scan found, or with no scan, the gate opens if and only if a found or configured digest is Verified, if all can be read. |
| `GateOnChain.ConfiguredBuildOpensTheGate` | web/gate/lib/gate.js:87-107 | With the scan failed, a readable and Verified configured build opens it. |
| `GateContract.CheckContract` | web/gate/lib/gate.js:34-76 | The loop over candidates answers as specified; one unreadable claim does not decide for the others. |
| `GateContract.ResultMeans` | web/gate/lib/gate.js:54-63 | A result carries the state that was read, and counts as NoClaim when none could be. |
| `GateContract.Supply` | web/gate/lib/protocol.js:53-67 | Something is sent exactly when the recheck allows it and the amount reads. |
| `GateSpec.BestIsFirstOfTheHighest` | web/gate/lib/consensus.js:158-168 | The reduction picks the first of the highest-ranked results. |
| `GateSpec.AnswerNamesTheBest` | web/gate/lib/consensus.js:158-168 | The answer carries the state and digest of that result, and the hash asked about. |
| `GateSpec.RanksAscend` | web/gate/lib/consensus.js:165 | NoClaim, Open, Insufficient, Disputed, Mismatch, Verified, in ascending order. |
| `GateSpec.AllowIffSomeVerified` | web/gate/lib/consensus.js:73-168 | The gate opens if and only if some result is Verified. |
| `GateSpec.ToneMeans` | web/gate/lib/consensus.js:73-168 | Green if and only if some claim is verified; otherwise danger if and only if one is a mismatch or disputed; otherwise waiting if and only if one is undecided; blocked if and only if nothing is known. |
| `GateSpec.OrderDoesNotMatter` | web/gate/lib/consensus.js:158-168 | Any permutation of the results gives the same decision and kind of answer. |
| `GateOnChain.BackedIsVerified` | contracts/registry/src/lib.rs:367-379 | Verified if and only if the window has closed and at least a quorum of distinct verifiers all rebuilt the claim's hash. |
| `GateOnChain.AllowMeansBackedForGood` | web/gate/lib/protocol.js:53-61 | An allowing answer names a candidate that was so backed when read, and stays so backed and Verified after every later run. |
| `GateOnChain.VerifiedOpensTheGate` | web/gate/lib/gate.js:52-76 | A readable candidate that was Verified when the check began opens the gate, whenever each candidate is read. |
| `GateOnChain.GateIsExact` | web/gate/lib/gate.js:34-107 | With all events at hand and every claim readable the gate opens if and only if some claim for the contract's bytes is Verified, whatever a configured build or other events name. |
| `Scan.SightOfPublished` | web/gate/lib/chain.js:101-116 | An encoded attestation event is seen as the claim it was filed under. |
| `Scan.SightIff` | web/gate/lib/chain.js:119-133 | An event is seen as an attestation of a claim if and only if its wasm hash is that hash in lower-case hex and its digest reads as that digest. |
| `Scan.AttestationsArePublished` | contracts/registry/src/lib.rs:320-340 | Every attestation a run puts on record is among its events. |
| `Scan.GateIsExactOnBytes` | web/gate/lib/chain.js:119-136 | After any run from deployment, a gate that fetched the encoded events about a hash opens if and only if some claim for that hash is Verified on chain. |
| `ClaimPrograms.ClaimInputDigest` | contracts/registry/src/claim.rs:24-39 | The contract hashes the specified layout. |
| `ClaimPrograms.InputDigest` | crates/api/src/claim.rs:95-112 | The service's streaming hasher, with its casts to 32 bits, hashes the same bytes. |
| `ClaimPrograms.BrowserInputDigest` | web/gate/lib/claim.js:68-79 | The browser's parts, concatenated, are the same bytes; text that is not 32 bytes of hex throws. |
| `ClaimPrograms.Concat` | web/gate/lib/claim.js:51-60 | The buffer ends up holding the chunks one after the other. |
| `ClaimLayout.DecodeInvertsPreimage` | contracts/registry/src/claim.rs:30-37 | A decoder maps bytes to a question if and only if they are that question's preimage and its count and lengths are below 2^32. |
| `ClaimLayout.PreimageLayout` | contracts/registry/src/claim.rs:30-37 | Byte by byte: the domain, source, image and count at their places, then each flag in order with its length before it, and nothing more. |
| `ClaimLayout.DomainSpelled` | contracts/registry/src/claim.rs:22 | The domain is the text sorofy-claim-v1. |
| `ClaimLayout.U32IsBigEndian` | web/gate/lib/claim.js:45-49 | Counts and lengths are written most significant byte first. |
| `ClaimLayout.DifferentQuestionsDiffer` | web/gate/lib/claim.js:72-76 | Two questions have one preimage only if they are the same question. |
| `ClaimLayout.LongFlagsCollide` | crates/api/src/claim.rs:105-111 | At 2^32 bytes the bound is needed: two different flag lists with one preimage. |
| `ClaimPrograms.BrowserNamesTheAttestedClaim` | web/gate/lib/claim.js:93-99 | Whenever a report forms a claim, the browser computes the same digest from the same reference, source and flags. |
| `ClaimPrograms.FormedMeans` | crates/api/src/claim.rs:69-92 | A report forms a claim exactly when the reference carries a digest and all four fields are 32 bytes of hex; no reference at all is the other reason; the claim carries the report's hashes and the digest of the question its source, image and flags spell. |
| `ClaimPrograms.MarkExact` | crates/api/src/claim.rs:119-128 | The image digest is what follows the first mark, and there is none without a mark. |
| `ClaimPrograms.BrowserMeans` | web/gate/lib/claim.js:68-99 | The browser's digest is that of the question its texts spell; its image text is what follows the mark, or a bare digest, in lower case; anything else throws. |
| `Hex.FromHex` | web/gate/lib/claim.js:23-34 | The browser's reader accepts exactly trimmed hex of the expected length and fills in its bytes. |
| `Hex.UnhexToHex` | web/gate/lib/claim.js:37-39 | Bytes written as hex read back as the same bytes. |
| `Hex.ToHexUnhex` | crates/api/src/claim.rs:131-136 | Hex read and written back is the text in lower case. |
| `Hex.HexIsPositional` | web/gate/lib/claim.js:37-39 | Each byte is written as its two digits, high one first, in lower case. |
| `Hex.HexDigitsAre` | web/gate/lib/claim.js:24-25 | The digits read are the twenty-two, and lower case is the usual one. |
| `Hex.TrimExact` | web/gate/lib/claim.js:24 | Trimming takes white space off both ends, and nothing else. |
| `XdrReader.Reader.ReadU32` | web/gate/lib/xdr.js:44-49 | Four bytes big-endian, or a throw at the end. |
| `XdrReader.Reader.ReadBytes` | web/gate/lib/xdr.js:51-56 | The bytes, with the position moved past their padding. |
| `XdrReader.Reader.Value` | web/gate/lib/xdr.js:58-92 | The recursive reader with its loops returns what the parsing function does and stops where it stops; it ends on every byte string. |
| `XdrReader.ReadScVal` | web/gate/lib/xdr.js:96-98 | One value from the start of the buffer. |
| `Xdr.Parse` | web/gate/lib/xdr.js:58-92 | Defined on every byte string: each value takes at least four bytes and the position never passes the end by more than the padding. |
| `Xdr.ReaderRefuses` | web/gate/lib/xdr.js:44-46 | Bytes that run out before a word and types not covered throw. |
| `Xdr.MissingPaddingPasses` | web/gate/lib/xdr.js:51-56 | Padding missing at the end passes. |
| `Xdr.AnyOtherKindIsContract` | web/gate/lib/xdr.js:67-72 | Any address kind but zero reads as a contract. |
| `Xdr.PresenceIsAFlag` | web/gate/lib/xdr.js:76-81 | Any presence flag but zero means the container is there, and zero that it is empty. |
| `Xdr.ParseEncoded` | web/gate/lib/xdr.js:58-92 | Reading the RFC 4506 encoding of any value of the subset, at any offset in any bytes, gives its image and ends exactly behind it. |
| `Xdr.DecodeEncoded` | web/gate/lib/xdr.js:96-98 | Decoding undoes encoding and consumes all of it. |
| `Xdr.WireLeaves` | web/gate/lib/xdr.js:15-20 | Type numbers, address kinds, lengths and padding of numbers, symbols, bytes and addresses on the wire. |
| `Xdr.WireContainers` | web/gate/lib/xdr.js:18-19 | Type numbers, presence flags and counts of vectors and maps on the wire. |
| `Xdr.ShapesReadBack` | web/gate/lib/xdr.js:58-77 | What each shape reads back as. |
| `Xdr.VectorReadsBack` | web/gate/lib/xdr.js:78-81 | A vector reads back as its items' images, in order. |
| `Xdr.MapIsWholeIff` | web/gate/lib/xdr.js:82-87 | A map with symbol keys comes through with every entry under its own name if and only if the names differ and none is `__proto__`. |
| `Xdr.SetKeyIs` | web/gate/lib/xdr.js:82-87 | Any other name is stored; the prototype's replaces the prototype for an object value and is dropped for any other. |
| `Xdr.ProtoKeyIsLost` | web/gate/lib/xdr.js:85 | An entry named `__proto__` is lost. |
| `XdrReader.BytesScVal` | web/gate/lib/chain.js:67-73 | The forty bytes written are the encoding of the digest. |
| `XdrReader.TopicReadsBack` | web/gate/lib/chain.js:67-77 | The reader gives the digest's text back. |
| `XdrReader.AttestedTopicOnTheWire` | web/gate/test/fixtures.registry-events.json:31 | The encoding of the attestation topic is the one captured from the network. |
| `XdrReader.EventReadsBack` | web/gate/lib/chain.js:101-116 | Every attestation event is seen as exactly the claim, hash and verifier it was published with. |
| `XdrReader.ClaimedIff` | web/gate/lib/chain.js:101-116 | An event is taken for an attestation if and only if it has three topics, the first is the name, and hash and digest are text; these are what is read off it. |
| `Amounts.ToStroopsIsExact` | web/gate/lib/protocol.js:27-38 | Each of the three errors exactly when it applies; an accepted amount is worth the written number times ten to the decimals, without rounding. |
| `Amounts.RoundTripIff` | web/gate/lib/protocol.js:27-45 | For every integer and every number of decimals, printing and reading back gives the amount if and only if it is positive and there is at least one decimal. |
| `Amounts.WithoutDecimalsUnreadable` | web/gate/lib/protocol.js:41-45 | With no decimals the printed text starts with the point and is refused. |
| `Amounts.ZeroPrints` | web/gate/lib/protocol.js:41-45 | Zero prints as a bare zero with decimals, and as nothing without. |
| `Amounts.NumeralsAreDecimal` | web/gate/lib/protocol.js:34-35 | The ten digits and their values. |
| `Amounts.PrintsCanonicalIff` | web/gate/lib/protocol.js:27-45 | Reading and printing back gives the text without redundant zeros if and only if there is at least one decimal. |
| `StagingContract.RestagePath` | crates/verifier-core/src/source.rs:503-510 | The loop to the first slash gives the specified path or the UTF-8 refusal. |
| `StagingSpec.RestageIs` | crates/verifier-core/src/source.rs:503-510 | Re-rooting writes the staging name for the first name and copies the rest, the slash included, unless the rest is not UTF-8. |
| `StagingContract.NormalizeForStaging` | crates/verifier-core/src/source.rs:411-490 | The loop over the entries builds the specified archive, or refuses it for a name that is not UTF-8 or a path with a parent component. |
| `StagingSpec.StagedInOrder` | crates/verifier-core/src/source.rs:411-490 | The staged archive is the staged form of every entry that is not metadata, in order and nothing else; each keeps its kind, a readable mode and time, and its data. |
| `StagingSpec.StagedEntryKeeps` | crates/verifier-core/src/source.rs:437-475 | What staging keeps of an entry and what it sets: defaults 0755 and 0644 for unreadable modes, zero for an unreadable time, owner 1000. |
| `StagingSpec.RefusedIff` | crates/verifier-core/src/source.rs:449-475 | An entry is refused if and only if a name that is looked at is not UTF-8 or the staged path has a parent component. |
| `StagingSpec.RefusedArchiveIff` | crates/verifier-core/src/source.rs:411-490 | An archive is refused if and only if one of its entries is. |
| `StagingSpec.SourceSpelled` | crates/verifier-core/src/source.rs:50 | The staging name is the text source. |
| `StagingContract.SingleTopDir` | crates/verifier-core/src/source.rs:524-563 | The check answers as specified. |
| `StagingSpec.Refused` | crates/verifier-core/src/source.rs:503-519 | One refused entry refuses the archive. |
| `StagingSpec.SingleMeans` | crates/verifier-core/src/source.rs:536-562 | The check accepts if and only if every path is safe, some path is not empty, and all tops decode to one name. |
| `StagingSpec.RefusalMeans` | crates/verifier-core/src/source.rs:543-561 | It answers unsafe if and only if some path is not safe, and otherwise with the number of tops if and only if that is not one. |
| `StagingSpec.SafeIff` | crates/verifier-core/src/source.rs:543-554 | A path is safe if and only if it does not begin with a slash and nowhere has two dots standing alone between slashes or ends. |
| `StagingSpec.AcceptedHasOneTopIff` | crates/verifier-core/src/source.rs:555-562 | An accepted archive has all its paths under one top if and only if different tops in it decode to different names and no path is empty. |
| `StagingSpec.DotTopIsAccepted` | crates/verifier-core/src/source.rs:536-562 | An archive of the dot is accepted. |
| `StagingSpec.TwoTopsCanMerge` | crates/verifier-core/src/source.rs:556 | It can fail: two directories that are not UTF-8 count as one, and staging gives two files one path. |
| `StagingSpec.RestageKeepsPathsApart` | crates/verifier-core/src/source.rs:503-510 | Under one slash-free top re-rooting is injective, idempotent, and independent of the top's name. |
| `StagingSpec.StagingForgetsTheTop` | crates/verifier-core/src/source.rs:403-409 | Two archives that differ only in the top's name are staged to the same archive. |
| `StagingSpec.StagingTwice` | crates/verifier-core/src/source.rs:411-490 | A staged archive is left as it is by staging, and lies under the staging name. |
| `StagedTree.StagingPreservesTheTreeIff` | crates/verifier-core/src/source.rs:411-490 | For every archive and every top name, the dot included, the staged archive unpacks entry by entry to the source tree with the top renamed and nothing else, if and only if every entry at its turn changes the same whether its path and a hard link's target are read as written or under the staging name. |
| `StagedTree.UnpackMovesIff` | crates/verifier-core/src/source.rs:449-475 | The same for one entry on any two such trees, with parents in a target resolved and symbolic links on the way followed. |
| `StagedTree.ClearIsAlike` | crates/verifier-core/src/source.rs:464-475 | An entry is alike whenever its path and its hard link's target begin with the top, the target's text does not climb above it, and no symbolic link followed on the way does. |
| `StagedTree.StagingPreservesTheTree` | crates/verifier-core/src/source.rs:411-490 | Read off the archive's text: the tree is preserved when no path or hard-link target goes through a link of the archive and no hard link's target leaves the top. |
| `StagedTree.AcceptedKeepsItsTree` | crates/verifier-core/src/source.rs:206-207 | From the check to the tree: these three for every accepted archive that has one top, and every path through links keeps its meaning. |
| `StagedTree.WalkMoves` | crates/verifier-core/src/source.rs:464-474 | Between two such trees every path, through every chain of symbolic links, leads to the image of the same place, leaves the tree in both, or runs into the link limit in both. |
| `StagedTree.LinksResolveAlike` | crates/verifier-core/src/source.rs:411-490 | In the staged archive every path that never leaves the top leads, through every chain of links, to the image of where it led, and it leaves the top in the one exactly when it does in the other. |
| `StagedTree.HardLinkElsewhereIsCaptured` | crates/verifier-core/src/source.rs:464-471 | The condition on hard links can fail: a link to another directory's file is staged as a link into the tree. |
| `StagedTree.ClimbingHardLinkBreaks` | crates/verifier-core/src/source.rs:464-471 | A hard link whose target climbs out and returns by the old name: a link to a file before staging, and to nothing after it. |
| `StagedTree.ClimbingDirectoryLinkMisleads` | crates/verifier-core/src/source.rs:449-474 | A file whose path goes through a symbolic link that climbs out and returns by the old name: it unpacks outside the staged tree. |
| `StagedTree.SymlinkSurvivesIff` | crates/verifier-core/src/source.rs:466-474 | A relative target, left as it is, means the image of what it meant if and only if it never stands above the top, or ends where nothing is renamed. |
| `StagedTree.ClimbingBreaks` | crates/verifier-core/src/source.rs:466-474 | A target that climbs out and returns by the old name breaks. |
| `StagedTree.DotTargetsShift` | crates/verifier-core/src/source.rs:466-474 | Under the dot every relative target keeps its place relative to the top. |

## Left out

- Storage lifetimes: records are never archived, and a stored allowance does not disappear before its last ledger; `extend_ttl` and its maximum are not modelled.
- Events are modelled only as what the gate reads back (`XdrReader.EventReadsBack`); publication, token metadata and `set_admin`'s event are not.
- Muxed destinations of `transfer`: the underlying address is the parameter.
- SHA-256, signatures and the Stellar SDK: the hash is a parameter, and an authorization is membership of an address in the call's set.
- Docker, git, gzip, HTTP, RPC and the command-line client: foreign calls, present only as the outcomes the protocols react to.
- `classify` and the texts of errors: the class of an outcome (landed, refused with a code, transient) is modelled, the parsing of the client's output is not.
- The worker's sleeping and waking: time passes by an event, and any event may come next; that the worker does come round is not stated.
- `discoverClaims`' paging through the RPC and its retry from the oldest ledger: the sightings are one list, and a scan that misses an attestation does not meet the hypothesis `Scan.Fetched`.
- A pool that is upgraded between `recheck` and the deposit: the verdict speaks of the bytes read, and those verdicts are what cannot go stale.
- `normalizeConsensus`, address display, JSON shapes and `executableFromEntryJson`: shape checks without state.
- GateContract.Supply: ends where the amount is read; building, signing and sending the transaction and `waitForTransaction` are SDK calls and a bounded poll.
- Float rounding in the limiter: exact reals stand for it.
- `avg_build_seconds` and the build-time counters: sums nothing else depends on.
- A process that crashes and is not started again: a restart is one event that ends with the sweep, which runs before the service accepts requests.
- Tar byte layout, header checksums, long names (with a parent component past the header's name field), device entries and link entries that carry a body: an archive is a list of decoded entries of four kinds and pax metadata.
- Modification times and owners in the unpacked tree: they are staged as the code stages them, but a tree holds data and modes.
- Base64 around the XDR reader and the stack depth of its recursion: bytes are where the model starts, and recursion is unbounded.
- SSRF ranges, secret redaction, constant-time comparison, keystore permissions, artifact selection, the explorer and the SEP-1, SEP-10 and SEP-24 flows: small checks and plumbing that would only add easy members.
- JobsContract.Service.RunJob: states what one job does from a free slot on when no other runs in between; waiting for a slot and interleavings are the subject of the JobsSpec lemmas.
