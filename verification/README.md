# Sthrip hub: models and proofs

Sthrip is a payment hub for software agents: agents deposit XMR, pay each other through the
hub, withdraw, escrow deals, open payment channels and find each other in a marketplace. This
project models the parts of it whose correctness depends on more than one function and proves
properties of those models. `dafny verify dfyconfig.toml` checks all of it.

## The models

**Money and idempotent requests.** `Books` holds the tables that deposits, withdrawals and hub
payments write, and their database transactions as functions from tables to tables. `Wallet` is
how one wallet call posts a transfer, with its retries. `Requests` is the protocol around them:
any number of attempts, of any agents and under any keys, each a sequence of atomic steps
(reserve the key in the cache, look at the idempotency table, run the transaction, call the
wallet, set the withdrawal's status, store the final response, return, fail, release the key),
interleaved freely with the posts of the wallet threads, with a recovery loop that sets the
status of withdrawals it once found pending, and with a cache that may forget any entry at any
time. Any attempt may fail or crash after any step, and any commit may be lost. These modules
prove things about every run: `RequestSafety` (the books balance, each effect happens once per
attempt, each withdrawal has one wallet call, and exactly when that call posts or sends its
transfer more than once), `RequestTruth` (an idempotency row tells what happened),
`RequestAnswers` (so does every answer, from the cache or the table, exactly as long as no commit
under its key is lost, but for a deposit that repeats another), `RequestStatus` (what anyone is
told is done and the withdrawal statuses agree exactly as long as the recovery loop overrules
none of it), `RequestOnce` (one effect per key when attempts do not overlap) and
`RequestOverlap` (exactly where that stops). `RequestWitnesses` has runs from the
empty hub in which each of the promises that are not kept fails. `Hub` is the handlers as a
class that changes tables and cache in place; its `Handle` is proved to be a run of the
protocol that ends with the reply it gives. `Idempotency` is the idempotency store: the local
dictionary is the protocol's cache seen through a clock, and a reservation in Redis is one of
the protocol's steps. `Recovery` is one pass of the recovery loop and what it matches.

**Codecs and text.** `Positional`, `Base58` and `Address`: the block Base58 decoder against the
encoder of CryptoNote Standard 007, and the address check around it. `LikeEscape`: the ILIKE
escape against the matching rules of section 9.7.1 of the PostgreSQL documentation.

**Batches.** `Batches` and `Backfill`: the refetch-until-short loop over rows with NULL
envelopes, its exact termination condition and its counters.

**Stateful stores.** `SessionSpec` and `SessionStore` (admin sessions and CSRF tokens),
`Scheduler`, `Stealth`, `Fairness` and `Nodes`, `Channels`, `Escrow`. Each is a class over its
own fields, specified by a step function; the lemmas are about whole runs of those steps.

**Marketplace.** `StableSort`, `Marketplace` and `Listing`: batched lookups, filters, stable
sort, pages.

**Shuffle.** `Shuffle`: Fisher-Yates with its random draws made explicit.

### What the models assume

- Amounts are integers in piconero; ratings and prices are reals that are only compared.
- Clock readings, random draws, generated ids and tokens, wallet answers and whether a commit
  succeeds are inputs of the methods that use them.
- SHA-256, written in hexadecimal, has no collisions, and its digests are not empty and hold no
  colon (`SessionSpec.DigestsExist` shows that this can be met); Keccak-256 is any function to
  32 bytes.
- A database transaction, with its row locks, is one step. A cache write inside it happens
  whether or not the commit then succeeds, as in the code.
- An encrypted payment envelope stands for what it encrypts; a response body for its fields.
- The session store's clock does not run backwards. The wallet does not hand out an address
  index twice. Agent ids and names are unique columns.

## Where the code and what it says about itself part

The models follow the code. For each point below a lemma says exactly when it happens, or, for
the last three, what the code does instead.

- A 409 for a key that is in use reaches the handler of api/routers/balance.py:379-382, which
  releases the key although the other attempt still holds it; two later attempts can then both
  act. The comments promise a single debit per key (`RequestOverlap.BusyReplyFreesKey`,
  `RequestOverlap.OverlapActsTwiceExactly`, `RequestOverlap.OneKeyTwoDebits`).
- sthrip/services/idempotency.py:224 promises a 422 when a key is reused with another body. A
  response found in the cache is returned without looking at the hash
  (`RequestOverlap.OtherBodyRefusedExactly`, `Idempotency.MismatchRefusedExactly`,
  `RequestWitnesses.OtherBodyAnswered`).
- `store_response` writes the cache inside the database session, before its commit, so after a
  lost commit a client is told of something that did not happen (`RequestOverlap.PhantomExactly`,
  `RequestAnswers.HonestExactly`, `RequestWitnesses.LostCommitLies`).
- The wallet client posts a transfer again after a timeout or a lost connection, although the
  first post may have been carried out: a withdrawal that is debited once can be sent up to
  three times (`Wallet.RepeatsExactly`, `RequestSafety.PostsExactly`,
  `RequestWitnesses.OneWithdrawalSentTwice`).
- The recovery loop marks withdrawals that it read as pending without looking at them again, so
  one that a client was told is done, with a key or without, can end up marked for review
  (`RequestStatus.StatusesAgreeExactly`, `RequestWitnesses.CompletedThenReviewed`,
  `RequestWitnesses.KeylessThenReviewed`).
- It does not use a matched transfer up, so one transfer can complete several withdrawals of the
  same amount to the same address (`Recovery.OverclaimsExactly`,
  `Recovery.OneTransferCompletesTwo`).
- The backfill does not end when a full batch of orphans comes back (`Batches.TerminatesExactly`),
  counts some orphans more than once in `skipped` (`Batches.RecountsNothingExactly`), and a dry
  run counts only the first fetch (`Backfill.DryRunReportsExactly`). An orphan is a milestone
  without its escrow. `escrow_id` is a NOT NULL foreign key with ON DELETE CASCADE
  (sthrip/db/models.py:284), so orphans need a database that does not enforce it.
- The address pattern ends in `$`, which in Python also matches before a final newline: in the
  dev environment such an address is accepted (`Address.DevAcceptsTrailingNewline`,
  `Address.AcceptedWithNewline`).
- `fund_channel` reopens a closed channel (`Channels.ClosedReopensExactly`), and negative
  capacities are not refused (`Channels.RunsSoundExactly`).
- No proposal sets an expiry, so a forced close of a channel is always refused
  (`Channels.NeverForceClosed`).
- api/routers/agents.py:235 calls every sort descending; the price sorts upwards
  (`Listing.ListedInOrder`).
- `arbitrate` treats every decision other than "release" as a refund (`Escrow.RunSound`).

## Model

| member | source | states |
|---|---|---|
| Positional.FromDigitsBound | api/schemas.py:412-418 | a block of w digits is below base^w, so overflow is decided by the value alone |
| Positional.WriteThenRead | api/schemas.py:412-418 | writing a number that fits in w digits and reading it back gives the number, in any base |
| Positional.ReadThenWrite | api/schemas.py:412-418 | reading w digits and writing the value back gives the digits, leading zeros included |
| Base58.AlphabetIncreasing | api/schemas.py:386 | the 58 characters are strictly increasing, so no character has two values |
| Base58.AlphabetExactly | api/schemas.py:386 | a character has a value if and only if it is a digit or a letter other than 0, I, O and l |
| Base58.TrailingBytes | api/schemas.py:400 | the table has no entry for 1, 4 and 8 characters, and otherwise gives the position whose entry is the length |
| Base58.DecodeBlock | api/schemas.py:412-418 | the loop reads the block as a base-58 number, rejects a character outside the alphabet and a value that does not fit the target bytes |
| Base58.BlockFailsExactly | api/schemas.py:412-418 | which of the two errors a block fails with: a character outside the alphabet comes first, then a value of 256^size or more |
| Base58.DecodeFullBlocks | api/schemas.py:420-427 | after the loop, what is decoded so far followed by the rest is the whole decoding; a failure ends it |
| Base58.DecodeLastBlock | api/schemas.py:429-434 | the short block: rejected when its length is not in the table, else decoded to the table's number of bytes |
| Base58.MoneroBase58Decode | api/schemas.py:403-436 | the whole method decodes block by block, first failure wins; what that decoding means is the next six rows |
| Base58.BlockDecodesEncoded | api/schemas.py:412-418 | a block of 1 to 8 bytes, encoded, decodes to itself |
| Base58.BlockEncodesDecoded | api/schemas.py:412-418 | an accepted block is the encoding of what it decodes to |
| Base58.DecodeOfEncode | api/schemas.py:403-436 | decode(encode(b)) = b for every byte string |
| Base58.EncodeOfDecode | api/schemas.py:403-436 | encode(decode(s)) = s for every accepted string |
| Base58.DecodeInjective | api/schemas.py:403-436 | two different strings never decode to the same bytes |
| Base58.AcceptsExactly | api/schemas.py:403-436 | accepted if and only if over the alphabet, trailing length not 1, 4 or 8, and every block in range; the output length is 8 per full block plus the table position |
| Base58.EncodedIsDecodable | api/schemas.py:398-400 | the encoder's strings are among the accepted ones and carry the right number of bytes |
| Address.CheckedIsAddress | api/schemas.py:484-490 | whatever passes the checksum is the encoding of its own payload and checksum |
| Address.AddressIsChecked | api/schemas.py:484-490 | the encoding of any payload with its checksum passes |
| Address.AcceptedExactly | api/schemas.py:468-496 | outside dev: accepted if and only if it starts with 4 or 8 on mainnet, 5 or 7 on stagenet, 9 or B on testnet and any of the six elsewhere, has 95 or 106 characters, and decodes to a payload and four bytes that are the first four of its digest |
| Address.RefusedExactly | api/schemas.py:474-496 | which error an address is refused with: prefix, length, characters, encoding, checksum, in this order |
| Address.ValidExactly | api/schemas.py:468-496 | outside dev: accepted if and only if the prefix is allowed on the network and the address encodes a 65- or 73-byte payload with its checksum |
| Address.DevAcceptsTrailingNewline | api/schemas.py:478-483 | in dev an address outside the alphabet is accepted if and only if its prefix and length are allowed, it ends in a newline and is over the alphabet before it |
| Address.AcceptedWithNewline | api/schemas.py:387 | such an address |
| Shuffle.SecureRandInt | sthrip/privacy.py:15-19 | refuses an empty range; otherwise lands in the range and every draw gives a different value |
| Shuffle.SecureShuffle | sthrip/privacy.py:36-46 | a fresh list, the input untouched, equal to the shuffle of the input by the draws |
| Shuffle.ShuffledPermutes | sthrip/privacy.py:36-46 | the result is a permutation of the input |
| Shuffle.DrawsOneToOne | sthrip/privacy.py:42-45 | on distinct elements different draws give different orderings |
| Shuffle.DrawsOnto | sthrip/privacy.py:42-45 | every ordering is the result of some draws |
| Shuffle.OneToOneExactly | sthrip/privacy.py:42-45 | draws and orderings correspond one to one if and only if the input repeats nothing |
| Shuffle.ReachesExactlyPermutations | sthrip/privacy.py:36-46 | the reachable orderings are exactly the permutations, repeated elements or not |
| Scheduler.TransactionScheduler.Schedule | sthrip/privacy.py:219-262 | the broadcast time lies in the range of the level, unless a last transaction is too close, which no object made by the constructor has: then it is at least 300 seconds after that; the item goes to the end of the queue |
| Scheduler.DelaysExactly | sthrip/privacy.py:237-246 | the delays that can be drawn for each level: exactly 0 to 300 seconds, 300 to 3600, 3600 to 14400, 14400 to 86400, and none for an unknown level |
| Scheduler.TransactionScheduler.GetPending | sthrip/privacy.py:264-277 | returns exactly the queued items that are due, in order, and keeps the others |
| Scheduler.NothingLost | sthrip/privacy.py:219-282 | over every run, scheduled = released + queued + cleared as multisets |
| Scheduler.QueueIsWaiting | sthrip/privacy.py:219-282 | over every run the queue is, in scheduling order, exactly the items no later call has found due or cleared |
| Scheduler.NeverReleasedEarly | sthrip/privacy.py:264-277 | over every run, a released item was scheduled before, and its broadcast time had come at a later get_pending |
| LikeEscape.ChainIsSinglePass | sthrip/utils.py:4-11 | the three chained replaces escape each character exactly once |
| LikeEscape.EscapeHasLeftInverse | sthrip/utils.py:4-11 | unescaping gives the value back |
| LikeEscape.EscapeInjective | sthrip/utils.py:4-11 | different values have different escapes |
| LikeEscape.PercentExactly | sthrip/utils.py:5 | what is escaped from: a leading % lets the rest of the pattern match from any position on |
| LikeEscape.UnderscoreExactly | sthrip/utils.py:5 | a leading _ takes any one character |
| LikeEscape.EscapedMatchesOnlyItself | sthrip/utils.py:4-11 | as a LIKE pattern an escaped value matches itself and nothing else |
| LikeEscape.SearchFindsSubstrings | api/admin_ui/views.py:495 | the pattern %escape(v)% matches t if and only if v is a substring of t |
| LikeEscape.SearchIgnoresOnlyCase | sthrip/services/agent_registry.py:328 | with ILIKE: if and only if the folded v is a substring of the folded t |
| LikeEscape.BackslashLastMatchesItselfExactly | sthrip/utils.py:8 | were the backslash replaced last, a value would match itself if and only if it holds no wildcard: the order matters |
| Batches.BatchCounts | scripts/backfill_payment_envelope.py:224-228 | a batch fills exactly the fillable rows it fetches and no orphan |
| Batches.OrphansStay | scripts/backfill_payment_envelope.py:154-160 | orphans survive any number of batches |
| Batches.EndsInTime | scripts/backfill_payment_envelope.py:207-238 | with k orphans below batch size b and M fillable rows, a fetch is short after at most M/(b-k) full batches |
| Batches.TerminatesExactly | scripts/backfill_payment_envelope.py:207-238 | the loop ends if and only if the batch size is zero or exceeds the number of orphans |
| Batches.RecountsNothingExactly | scripts/backfill_payment_envelope.py:227-228 | no orphan is counted twice if and only if the rows that make up the full batches hold none |
| Batches.CountsAllExactly | scripts/backfill_payment_envelope.py:208-214 | a fetch of n rows holds every row of a kind if and only if each has fewer than n missing rows before it |
| Batches.CountIsMultiplicity | scripts/backfill_payment_envelope.py:227-228 | the numbers the counters are compared with are the multiplicities of each kind |
| Backfill.FilledRow | scripts/backfill_payment_envelope.py:150-184 | what one row becomes: an existing envelope stays, a milestone takes the buyer as sender and the seller as recipient from the escrow with its id, a relay carries no amount, a milestone whose escrow is not there stays as it is |
| Backfill.KindExactly | scripts/backfill_payment_envelope.py:147-160 | an orphan is a milestone without an envelope whose escrow id is missing or unknown; every other row without an envelope can be filled |
| Backfill.ResolveMilestoneParents | scripts/backfill_payment_envelope.py:116-133 | the batch query gives every fetched milestone the parent that a lookup of its own would |
| Backfill.BackfillRow | scripts/backfill_payment_envelope.py:136-184 | reports a mutation if and only if the row is fillable, fills that row and no other, nothing on a dry run |
| Backfill.BackfillBatch | scripts/backfill_payment_envelope.py:208-228 | one pass fills the first rows without an envelope where possible and counts both kinds |
| Backfill.BackfillTable | scripts/backfill_payment_envelope.py:192-240 | where the loop ends: every fillable row is filled and no other is touched, each milestone with the buyer and the seller that the escrow table has for its id; processed is their initial number, skipped is orphans plus recounts; a dry run changes nothing and counts both kinds in the first fetch |
| Backfill.NothingLeftExactly | scripts/backfill_payment_envelope.py:201-204 | no row is fillable if and only if completing the table changes nothing |
| Backfill.SecondRunProcessesNothing | scripts/backfill_payment_envelope.py:201-204 | after a complete run a second one finds nothing to process |
| Backfill.InterruptedRunResumes | scripts/backfill_payment_envelope.py:235 | stopping after any number of committed batches and starting again gives the same table |
| Backfill.DryRunReportsExactly | scripts/backfill_payment_envelope.py:230-233 | a dry run reports the real number if and only if every fillable row has fewer than the batch size of missing rows before it |
| SessionSpec.KeySpaces | api/session_store.py:106-111 | session keys and CSRF keys never meet, and keys are as distinct as tokens |
| SessionSpec.DigestsExist | api/session_store.py:105-108 | a hash as the store assumes it exists |
| SessionSpec.MatchesExactly | api/session_store.py:209-225 | a caller is accepted if and only if everything the session was bound to is presented again |
| SessionSpec.SessionIsLastWritten | api/session_store.py:146-258 | after any run the store holds for a token what the last operation on that token wrote |
| SessionSpec.ValidatesExactly | api/session_store.py:177-225 | after any run validation succeeds if and only if that last write is live and its binding matches, and a plain lookup if and only if it is live |
| SessionSpec.CsrfAcceptedOncePerCreation | api/session_store.py:264-299 | over any run a CSRF token is accepted at most as often as it was created |
| SessionSpec.CsrfAcceptedExactly | api/session_store.py:278-299 | accepted if and only if created less than ten minutes ago and not verified since, whatever sessions did |
| SessionSpec.UrlSafeAcceptedExactly | api/session_store.py:264-299 | a token of letters, digits, - and _, as the program creates them, is accepted if and only if it was created less than 600 seconds ago and neither created nor verified since |
| SessionSpec.SpacesRefused | api/session_store.py:284-285 | a token of nothing but spaces and tabs is refused and consumes nothing |
| SessionSpec.SpacesExactly | api/session_store.py:284-285 | the 29 characters that str.strip removes |
| SessionSpec.CreationsExactly | api/session_store.py:264-276 | creations are counted one by one |
| SessionStore.AdminSessionStore.EvictExpired | api/session_store.py:95-103 | drops exactly the expired entries and is not observable |
| SessionStore.AdminSessionStore.StoreToken | api/session_store.py:113-120 | writes the entry into the ideal map, eviction or not; only a dictionary of a thousand entries is evicted, and then holds no expired one |
| SessionStore.AdminSessionStore.ReadToken | api/session_store.py:122-133 | answers as the ideal map does, though the dictionary forgets expired entries |
| SessionStore.AdminSessionStore.DeleteToken | api/session_store.py:135-140 | removes the key from the ideal map |
| SessionStore.AdminSessionStore.CreateSession | api/session_store.py:146-175 | one step of the ideal map: a bound session |
| SessionStore.AdminSessionStore.ValidateSession | api/session_store.py:177-225 | the answer of the ideal map, which is left as it is |
| SessionStore.AdminSessionStore.SetSession | api/session_store.py:231-240 | one step of the ideal map: an unbound session |
| SessionStore.AdminSessionStore.GetSession | api/session_store.py:242-248 | the answer of the ideal map, bindings ignored |
| SessionStore.AdminSessionStore.DeleteSession | api/session_store.py:250-258 | one step of the ideal map |
| SessionStore.AdminSessionStore.CreateCsrfToken | api/session_store.py:264-276 | one step of the ideal map: ten minutes |
| SessionStore.AdminSessionStore.VerifyCsrfToken | api/session_store.py:278-299 | the answer of the ideal map, and the token is consumed |
| Books.ComputeFee | sthrip/services/fee_calculator.py:51-76 | at least one piconero, and within half a piconero of amount times rate, halves rounded up |
| Books.FeePerTier | sthrip/services/fee_calculator.py:32-76 | thirty in ten thousand on the free tier and ten on verified, premium and enterprise, rounded half up and one piconero at least: exactly that is charged |
| Books.FeeMonotone | sthrip/services/fee_calculator.py:38-76 | a larger amount never costs less, a paid tier never more than the free one |
| Books.TransferAt | sthrip/db/transaction_repo.py:155-167 | sender pays amount and fee, recipient gets the amount, every other balance stays |
| Books.PaymentCharges | sthrip/db/transaction_repo.py:151-209 | a payment that goes through: the sender pays the amount and the fee of its tier, which the one new fee row has under its name, the recipient gets the amount, the route says so, and nobody else has another balance |
| Books.WithdrawalDebits | api/routers/balance.py:191-196 | a withdrawal takes its amount from that agent and adds one pending row |
| Books.DepositCredits | api/routers/balance.py:121-122 | a deposit adds its amount to that agent |
| Books.RowWritten | api/routers/balance.py:131-134 | with a key only its own row is written, with the body hash, the answer and 202 for a withdrawal, 200 otherwise; without one none is |
| Books.RefusedExactly | api/routers/balance.py:185-195 | self-payment, self-send, known payment and insufficient balance, amount and fee of the tier together: each if and only if it is the case and none before it is |
| Books.PaymentIdsExactly | sthrip/services/fee_collector.py:177-183 | with keys two payments have one id if and only if payer, recipient, amount and key agree |
| Books.TransactKeepsBalance | api/routers/balance.py:181-216 | balances + fee rows + withdrawal rows = deposits after every transaction, and no balance is negative |
| Books.TransactKeepsFees | sthrip/db/transaction_repo.py:195-209 | every hub payment has exactly one fee row, with its payer and its amount |
| Books.TransactKeepsAccounts | sthrip/db/balance_repo.py:109-142 | every agent's balance is deposits plus received, minus sent with fees, minus withdrawn |
| Books.TransactKeepsSound | api/routers/payments.py:102-198 | all of this together, for deposits, withdrawals and hub payments |
| Books.StatusKeepsSound | api/routers/balance.py:228-258 | marking a withdrawal completed or in need of review moves no money |
| Wallet.Call | sthrip/wallet.py:54-87 | the retry loop: three posts at most, each but the last a timeout or lost connection, no further post after anything else |
| Wallet.RepeatsExactly | sthrip/wallet.py:54-59 | posted more than once if and only if an earlier post timed out or lost its connection; carried out more than once if and only if that happened to a post that was carried out, and a later one was carried out again |
| Wallet.PostsAgainExactly | sthrip/wallet.py:54-87 | a first post is always made, a further one if and only if fewer than three were and the last timed out or lost its connection |
| Requests.SlotsExactly | sthrip/services/idempotency.py:134-136 | two attempts share a key if and only if agent, key and endpoint are the same |
| Requests.EndedStays | api/routers/balance.py:379-382 | nothing happens to an attempt after its end |
| Requests.MayEnd | api/routers/balance.py:379-382 | before that it can fail or crash at any time |
| Requests.ScanExactly | sthrip/services/withdrawal_recovery.py:20-24 | the recovery loop takes up exactly the rows it finds pending |
| Requests.ReleasedExactly | sthrip/services/idempotency.py:305-320 | a release removes the sentinel of its own key and nothing else |
| RequestSafety.NextKeeps | api/routers/balance.py:300-382 | every step of the protocol keeps the invariant of the next row |
| RequestSafety.RunKeeps | api/routers/balance.py:155-382 | over every run, with failures, lost commits, crashes, cache losses, overlaps and recovery: sound books, an idempotency row if and only if its effect, one effect per attempt, a wallet call only for a committed withdrawal and completed only when it was answered |
| RequestSafety.OneOwner | api/routers/balance.py:342-351 | only one attempt is ever in charge of a withdrawal row |
| RequestSafety.SettledOnlyIfAnswered | api/routers/balance.py:223-258 | over every run a withdrawal to the chain is completed by its handler only after the wallet answered a post of its call |
| RequestSafety.OneEffectEach | api/routers/balance.py:155-216 | over every run no attempt has two effects and no withdrawal row belongs to two |
| RequestSafety.HubPaymentOnce | sthrip/services/fee_collector.py:177-201 | over every run, overlapping or not, a payment id with a key takes effect at most once |
| RequestSafety.CallsOnlyGrow | sthrip/services/wallet_service.py:110-134 | no step starts a withdrawal's wallet call over |
| RequestSafety.OneCallPerWithdrawal | api/routers/balance.py:219-228 | over every run all posts for a withdrawal belong to one call |
| RequestSafety.PostsExactly | sthrip/wallet.py:54-87 | over every run a withdrawal's transfer is posted three times at most, and more than once, or sent more than once, exactly as RepeatsExactly says |
| RequestTruth.CommitTellsTruth | api/routers/balance.py:185-216 | a committed transaction answers with the amount, row, payment, fee and new balance it recorded |
| RequestTruth.FinalTellsTruth | api/routers/balance.py:369-376 | the final answer of a withdrawal fits its effect, and for the chain the wallet has answered |
| RequestTruth.RowsTellTheTruth | sthrip/db/idempotency_repo.py:43-81 | over every run, overlapping, reconciled or not, each idempotency row carries the body hash and true outcome of a committed request, a deposit's new balance included |
| RequestAnswers.HonestWhileCommitsHold | sthrip/services/idempotency.py:414-462 | over every run without a misleading lost commit under a key, everything cached or answered under it is true of something committed under it |
| RequestAnswers.MisleadingStep | sthrip/services/idempotency.py:267-303 | a transaction that loses its commit leaves an answer in the cache that fits nothing committed, unless it is a deposit that repeats one committed under the key down to the balance it leaves |
| RequestAnswers.HonestExactly | sthrip/services/idempotency.py:267-303 | answers under a key are true at all times of a run if and only if no such commit is lost |
| RequestStatus.NextAgreesExactly | sthrip/services/withdrawal_recovery.py:34-52 | a step makes what is told to be done (by a row, the cache or any attempt, with a key or without) and its withdrawal's status disagree if and only if it is the recovery loop marking for review what was told or is about to be |
| RequestStatus.StatusesAgreeExactly | sthrip/services/withdrawal_recovery.py:9-54 | over every run they agree at all times if and only if that never happens |
| Recovery.FindMatchingTransfer | sthrip/services/withdrawal_recovery.py:97-116 | the first transfer with this address and amount whose time, if known, is within half an hour |
| Recovery.RecoveredExactly | sthrip/services/withdrawal_recovery.py:34-56 | row by row: pending since before the cutoff ends completed if some transfer has its address and amount and, if it has a time, lies within 1800 seconds of it, else in review; any other row stays as it is |
| Recovery.RecoverPending | sthrip/services/withdrawal_recovery.py:9-56 | completes each withdrawal pending since before the cutoff that some transfer matches (address, amount, 1800 seconds), marks the others pending since then for review, touches no other row, and nothing at all when the wallet cannot be asked |
| Recovery.StaleRowsExactly | sthrip/db/pending_withdrawal_repo.py:36-42 | exactly the pending withdrawals older than the cutoff, each once |
| Recovery.SecondPassFindsNothing | sthrip/services/withdrawal_recovery.py:34-56 | a second pass has nothing to settle |
| Recovery.OverclaimsExactly | sthrip/services/withdrawal_recovery.py:97-116 | a pass completes more withdrawals than there are transfers behind them if and only if two stale ones find the same transfer first |
| Recovery.SharersAreTwins | sthrip/services/withdrawal_recovery.py:103-108 | that takes two withdrawals of one amount to one address |
| Recovery.OneTransferCompletesTwo | sthrip/services/withdrawal_recovery.py:35-38 | two such withdrawals that a single transfer completes |
| RequestOnce.NonOverlappingMeansAlone | api/routers/balance.py:319-327 | if a client repeats a request only after the last attempt ended, two attempts never hold one key |
| RequestOnce.AloneMeansOnce | api/routers/balance.py:163-170 | while at most one attempt holds the key, the key has at most one effect |
| RequestOnce.AtMostOncePerKey | api/routers/balance.py:155-216 | over every run with non-overlapping attempts: at most one debit, one pending row and one wallet call of three posts per key, and the idempotency row exists if and only if the debit does |
| RequestOverlap.BusyReplyFreesKey | api/routers/balance.py:379-382 | the handler of a 409 frees a key that another attempt still holds |
| RequestOverlap.FreeKeyLetsAnotherIn | sthrip/services/idempotency.py:414-462 | with the key freed and no row yet, the next attempt gets as far as the first |
| RequestOverlap.OverlapActsTwiceExactly | api/routers/balance.py:185-197 | two attempts that hold one key act twice if and only if both pass the guards on what they find together: always for deposits, for withdrawals and payments when the balance covers both, and payments also need another recipient or amount |
| RequestOverlap.OneKeyTwoDebits | api/routers/balance.py:300-382 | a run from the empty hub in which one key debits twice |
| RequestOverlap.OverlappingPaymentsPayOnce | sthrip/services/fee_collector.py:177-201 | overlapping hub payments of the same amount to the same agent move money once |
| RequestOverlap.PhantomExactly | sthrip/services/idempotency.py:271-303 | one step makes the cache hold a response without a row if and only if a commit is lost after the cache write |
| RequestOverlap.ReplayAnsweredFromRow | sthrip/services/idempotency.py:442-460 | a replay that misses the cache is answered from the row, or refused for another body, and changes nothing |
| RequestOverlap.OtherBodyRefusedExactly | sthrip/services/idempotency.py:428-453 | a key is refused for another body (422, not the 409 of a busy key) if and only if the cache knows nothing of it and the row has another hash |
| RequestWitnesses.LostCommitLies | sthrip/services/idempotency.py:267-303 | a run from the empty hub in which a repeated deposit is confirmed that never happened |
| RequestWitnesses.OtherBodyAnswered | sthrip/services/idempotency.py:428-440 | a run in which a deposit of seven is answered with an earlier deposit of five under its key |
| RequestWitnesses.OneWithdrawalSentTwice | sthrip/wallet.py:54-81 | a run in which one withdrawal, debited once, is sent twice |
| RequestWitnesses.CompletedThenReviewed | sthrip/services/withdrawal_recovery.py:34-49 | a run in which a withdrawal answered as done is then marked for review |
| RequestWitnesses.KeylessThenReviewed | sthrip/services/withdrawal_recovery.py:34-49 | the same without a key, where only the client remembers the answer |
| Hub.HubServer.ReserveInCache | sthrip/services/idempotency.py:428-440 | the sentinel is placed if and only if the slot is free; otherwise 409 or the cached response |
| Hub.HubServer.CheckTable | sthrip/services/idempotency.py:442-460 | no row: proceed; another hash: 422; else the row's body, which goes back to the cache |
| Hub.HubServer.Release | sthrip/services/idempotency.py:305-320 | clears the key only while it holds the sentinel |
| Hub.HubServer.DeductAndCreatePending | api/routers/balance.py:155-216 | self-send and balance checks, debit, pending row and in-progress row under one commit, the cache written before it |
| Hub.HubServer.CreditDeposit | api/routers/balance.py:110-134 | credit and idempotency row under one commit |
| Hub.HubServer.ExecuteHubTransfer | api/routers/payments.py:102-198 | self-payment, duplicate and balance checks, then the transfer under one commit |
| Hub.HubServer.TryReserve | sthrip/services/idempotency.py:181-230 | the two parts of try_reserve are steps of the protocol |
| Hub.HubServer.SubmitToWallet | api/routers/balance.py:223-241 | starting the wallet call, its posts as far as the handler waits, and its success or failure are steps of the protocol |
| Hub.HubServer.ProcessOnChain | api/routers/balance.py:219-287 | an answered call leads to completion, anything else to review and an error, in steps of the protocol |
| Hub.HubServer.ProcessWithdrawal | api/routers/balance.py:219-296 | the withdrawal after its debit, on chain or in the ledger, with its final response, is a run of the protocol |
| Hub.HubServer.Serve | api/routers/payments.py:289-368 | the transaction and what follows it are a run of the protocol |
| Hub.HubServer.Attend | api/routers/balance.py:316-378 | the try block is a run of the protocol that ends with an answer or on its way to the handler |
| Hub.HubServer.Handle | api/routers/balance.py:316-382 | a handler, whatever goes wrong on its way, is a run of its own attempt's steps and ends with the reply it gives |
| Idempotency.ReserveIsTwoSteps | sthrip/services/idempotency.py:414-462 | try_reserve is the two protocol steps taken together: same cache, same outcome |
| Idempotency.AcquireRedis | sthrip/services/idempotency.py:324-354 | SET NX, GET and SET NX again: exactly one of the three moments decides, as one step of the protocol there |
| Idempotency.RedisStepExactly | sthrip/services/idempotency.py:324-354 | the look-up that decides is the step ReserveKey; a key that is back at the third command is the step LoseRace, a 409 that leaves the cache alone |
| Idempotency.MismatchRefusedExactly | sthrip/services/idempotency.py:428-453 | the promised 422 comes if and only if the cache knows nothing of the key and the row has another hash |
| Idempotency.TimeOnlyForgetsResponses | sthrip/services/idempotency.py:436-439 | as time passes responses disappear from the dictionary, nothing appears or changes, a sentinel stays |
| Idempotency.IdempotencyStore.EvictExpired | sthrip/services/idempotency.py:464-473 | drops exactly the expired responses, which no reader could see then or later |
| Idempotency.IdempotencyStore.Acquire | sthrip/services/idempotency.py:428-440 | on the visible cache: 409, cached response or sentinel; an expired response counts as absent |
| Idempotency.IdempotencyStore.CheckDatabase | sthrip/services/idempotency.py:442-462 | the table part on the visible cache: proceed, 422 or the row's response put back |
| Idempotency.IdempotencyStore.TryReserve | sthrip/services/idempotency.py:414-462 | eviction included, and with the clock read four times, the visible cache and the outcome are those of the protocol's reservation |
| Idempotency.IdempotencyStore.StoreResponse | sthrip/services/idempotency.py:298-303 | the visible cache remembers the response, for exactly 3600 seconds |
| Idempotency.IdempotencyStore.Release | sthrip/services/idempotency.py:318-320 | the visible cache loses the key if and only if it held the sentinel |
| Fairness.Pick | sthrip/network.py:87-88 | the first of the nodes with the smallest count |
| Fairness.TotalRises | sthrip/network.py:103 | n calls raise the sum of the counts by n |
| Fairness.SpreadNeverWidens | sthrip/network.py:87-103 | counts within a band at least one wide stay within a band of that width for ever |
| Fairness.EvenExactly | sthrip/network.py:87-103 | all counts stand at a level no lower than the largest if and only if exactly the missing number of calls was made |
| Nodes.NodeManager.FindFastest | sthrip/network.py:90-96 | the first of the nodes with the smallest known latency, any node when none is known |
| Nodes.OneFastest | sthrip/network.py:92-97 | if any latency is known only one position qualifies |
| Nodes.WorkingSnoc | sthrip/network.py:77-79 | the available nodes are those whose host has not failed, in the order of the list |
| Nodes.NodeManager.GetNode | sthrip/network.py:62-104 | an error if and only if no node is available; else never a failed host, the node its strategy asks for, and its count rises wherever it is listed |
| Nodes.NodeManager.GetLeastUsed | sthrip/network.py:87-104 | n calls for the least used node give the counts that the fairness lemmas are about |
| Stealth.StealthAddressManager.PopOldest | sthrip/stealth.py:65 | the oldest entry goes, the others keep their order |
| Stealth.StealthAddressManager.Generate | sthrip/stealth.py:30-67 | asks the wallet for an address labelled by label and purpose, evicts down to room for one, then appends the new address, unused |
| Stealth.StealthAddressManager.MarkUsed | sthrip/stealth.py:85-93 | marks the cached address with that index, if any, and keeps the order |
| Stealth.StealthAddressManager.GetUnused | sthrip/stealth.py:103-105 | the unused cached addresses in order |
| Stealth.StealthAddressManager.Rotate | sthrip/stealth.py:107-113 | a mark followed by a generation without a label of its own, for the purpose or for rotation |
| Stealth.CacheIsEndOfLog | sthrip/stealth.py:63-67 | over every run with fresh indices the cache is the last ten thousand of all addresses generated, in order |
| Stealth.UsedExactly | sthrip/stealth.py:85-93 | an address counts as used if and only if it was marked after it was generated |
| Stealth.UnusedExactly | sthrip/stealth.py:103-105 | over every run the unused addresses are those of the last ten thousand generated that were not marked since, in order |
| Channels.StateIsReplay | sthrip/channels.py:179-234 | over every run history and current state are the replay of the accepted payments |
| Channels.RunKeepsSound | sthrip/channels.py:161-287 | every operation keeps balances non-negative, their sum, the sequence numbers and one positive transfer between neighbours |
| Channels.RunsSoundExactly | sthrip/channels.py:125-159 | this holds in every reachable state if and only if both proposed capacities are non-negative |
| Channels.ClosedReopensExactly | sthrip/channels.py:172-177 | a closed channel stays closed, with its states, if and only if it is not funded again |
| Channels.ClosingFreezes | sthrip/channels.py:236-257 | a cooperative close freezes an open channel: unless it is funded again no run moves its balances or history, and it stays closing until it is finalized |
| Channels.AcceptedExactly | sthrip/channels.py:161-287 | when each operation is accepted, payments in both directions included |
| Channels.NeverForceClosed | sthrip/channels.py:101-108 | since no proposal sets an expiry, a forced close is refused in every reachable state |
| Channels.ChannelManager.ProposeChannel | sthrip/channels.py:125-159 | a new pending channel under the id, the others as they were |
| Channels.ChannelManager.AcceptChannel | sthrip/channels.py:161-170 | succeeds if and only if pending, with the error otherwise; only that channel may change |
| Channels.ChannelManager.FundChannel | sthrip/channels.py:172-177 | records the transaction and opens that channel whatever its status |
| Channels.ChannelManager.Pay | sthrip/channels.py:179-234 | the error cases in the code's order, a refused payment changes nothing, other channels are untouched |
| Channels.ChannelManager.CloseCooperatively | sthrip/channels.py:236-257 | succeeds if and only if open, with the error otherwise |
| Channels.ChannelManager.ForceClose | sthrip/channels.py:259-280 | succeeds if and only if open and past an expiry, with the error otherwise |
| Channels.ChannelManager.FinalizeClose | sthrip/channels.py:282-287 | records the transaction and closes that channel whatever its status |
| Channels.ChannelManager.GetBalance | sthrip/channels.py:309-319 | each side sees its own balance, anyone else an error |
| StableSort.SortedIsTheOnlyOne | api/routers/agents.py:340-362 | an arrangement is the sorted one if and only if keys do not decrease and equal keys keep their order |
| Marketplace.IndexAgents | api/routers/agents.py:270-271 | the two dictionaries hold exactly the fetched agents, both ways |
| Marketplace.GroupTemplates | api/routers/agents.py:288-291 | the setdefault loop gives each name, in order, the templates of the ids mapped to it, and an empty name none |
| Marketplace.RateNames | api/routers/agents.py:293-296 | every requested name gets the rating its id leads to |
| Marketplace.LookupsAgree | api/routers/agents.py:264-296 | the batched maps and a search for one agent find the same rating and templates |
| Marketplace.RatingExactly | api/routers/agents.py:264-296 | the rating found is the summary row of the agent with that name |
| Marketplace.TemplatesExactly | api/routers/agents.py:264-291 | the templates found are those whose provider is the agent with that name |
| Marketplace.BuildLookups | api/routers/agents.py:255-296 | so the program's two maps hold, for every name asked for, what a search for that agent finds |
| Listing.CheapestExactly | api/routers/agents.py:326-328 | the minimum price is within a limit if and only if some template is |
| Listing.PassesRatingExactly | api/routers/agents.py:302-313 | the two rating filters: at least that rating, at least that many reviews, and no agent without reviews |
| Listing.PassesSlaExactly | api/routers/agents.py:315-329 | the price and SLA filters, in terms of the agent's active templates |
| Listing.ListedExactly | api/routers/agents.py:340-362 | the listing is the one arrangement of the passing profiles ordered by the key and stable |
| Listing.ListedInOrder | api/routers/agents.py:340-362 | whatever comes earlier has at least the rating, reviews or trust, or no dearer an offer |
| Listing.ListedPass | api/routers/agents.py:331-334 | listed if and only if a candidate that passes every filter, each as often as it was a candidate |
| Listing.ListedIfQualified | api/routers/agents.py:255-334 | the same in terms of the three tables: the ratings and the active templates of the agent with that name meet every filter given |
| Listing.SliceAt | api/routers/agents.py:364-365 | a page holds the items from offset on, limit of them or as many as there are |
| Listing.PagesConcatenate | api/routers/agents.py:364-365 | successive pages concatenate to the listing with no gap and no repeat |
| Listing.Browse | api/routers/agents.py:255-365 | the endpoint with its maps and loops returns that page of that listing, and its total |
| Escrow.RunSound | sthrip/escrow.py:123-263 | over every run: terms never change, at most four status changes, completed_at if and only if completed, refunded only by the arbiter, a decision settles the status |
| Escrow.TerminalAbsorbs | sthrip/escrow.py:158-263 | completed, refunded and expired deals never change again |
| Escrow.AbsorbsExactly | sthrip/escrow.py:158-263 | and no other deal is settled: to each something can still be done |
| Escrow.AllowedExactly | sthrip/escrow.py:158-263 | the statuses each request is accepted from; a late deal can always be asked back, so expiry adds none |
| Escrow.MovesExactly | sthrip/escrow.py:158-263 | every accepted request changes the status, but for a refund request in time or in a dispute |
| Escrow.ExpiredExactly | sthrip/escrow.py:245-255 | expired if and only if a refund request came after the deadline while pending or funded |
| Escrow.EscrowManager.CreateDeal | sthrip/escrow.py:123-156 | a new pending deal under the id with its parties, amount and description |
| Escrow.EscrowManager.FundDeal | sthrip/escrow.py:158-176 | succeeds if and only if pending and records transaction and address; only that deal may change |
| Escrow.EscrowManager.Deliver | sthrip/escrow.py:178-186 | succeeds if and only if funded |
| Escrow.EscrowManager.Release | sthrip/escrow.py:188-204 | succeeds if and only if funded or delivered |
| Escrow.EscrowManager.Dispute | sthrip/escrow.py:206-217 | succeeds if and only if funded or delivered and records who and why |
| Escrow.EscrowManager.Arbitrate | sthrip/escrow.py:219-243 | succeeds if and only if disputed; settles the status |
| Escrow.EscrowManager.RequestRefund | sthrip/escrow.py:245-263 | expires a late deal, otherwise refuses or leaves it as it is |

## Left out

- Hub.HubServer.ExecuteHubTransfer: amounts with more than twelve decimal places, which the code truncates for the fee, the decimal text that goes into the payment id, the spending policy, the recipient lookup (any exception they raise is the step Fail) and the Transaction row with its monthly counter.
- Hub.HubServer.FinishWithdrawal: the remaining balance, transaction hash and other text of the response body, and the unique-index conflict of two inserts in flight at once, which cannot arise between atomic steps.
- Hub.HubServer.CreditDeposit: the on-chain deposit branch, which writes no balance.
- RequestOnce.AtMostOncePerKey: assumes that attempts under one key do not overlap, because with overlap it is false (RequestOverlap.OneKeyTwoDebits).
- RequestStatus.StatusesAgreeExactly: in the protocol, which pending withdrawals are old enough and which match a transfer are inputs of the recovery steps; `Recovery` says what they are for one pass.
- Wallet.Call: the pauses between posts and the address lookup before the first; a crash does not end a wallet thread, so the model allows more posts than the program.
- SessionStore.AdminSessionStore.ValidateSession: the Redis branch, payloads that are not JSON objects (the store never writes one) and the exception for non-ASCII addresses.
- Backfill.BackfillTable: encryption of the envelope, amount buckets, negative batch sizes and rows inserted or deleted by others between two fetches.
- Nodes.NodeManager.GetNode: rotate, the connection pool and the proxy rotator would only add easy members.
- generate_batch of the stealth addresses is a loop of Stealth.StealthAddressManager.Generate and is_ours a wallet query.
- Channels.ChannelManager.Pay: signatures and timestamps of states, and floating-point rounding: conservation is stated on exact amounts.
- Listing.Browse: the response dictionaries, profile fields that no filter or sort reads, and the registry query with its limit of 5000 candidates.
- Address.ValidExactly: Keccak-256 itself.
- TEE dispatch of hub payments, webhooks, audit log and metrics: between the last commit and the response they can only raise, which the model allows.
- Wallet RPC other than the transfer, deposits seen on chain, refunds by an administrator.
- run_backfill and its command line, HTLCs, fee jitter, decoys and privacy scores: single-branch or range facts.
- SLA, swap, credit, streaming, treasury and multisig services, the admin pages, registration, webhooks and the client libraries.
