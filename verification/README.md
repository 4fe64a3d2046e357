# A verified model of the hub indexer

The indexer follows a chain block by block. It keeps a RocksDB store of unspent outputs, MySQL tables
of native balances, ERC-20 balances, proposals and votes, and a record of how far it has come. This
project models that core in Dafny and proves what it keeps over every block, every call and every run.

Each part takes the form of the code it models: objects whose methods change fields are classes,
loops are loops, and every such method is tied by its `ensures` to a function of its inputs and the old
state. The laws are lemmas about those functions.

| part | files |
|---|---|
| shared values, text and sums | `Wrappers`, `Chain`, `Text`, `Sums`, `Abi` |
| native ledger | `UtxoStore`, `UtxoBooks`, `UtxoProcessor`, `SpendLaws`, `DeltaLaws`, `TransactionLaws`, `BlockLaws`, `BalanceRepo`, `NativeLedger` |
| connection pool | `PoolProtocol`, `DbPool` |
| transaction parameters | `Erc20Parser`, `DeploymentLaws`, `FundParser`, `CallLaws` |
| ERC-20 ledger | `Erc20Ledger`, `Erc20Laws`, `Erc20Calls` |
| governance | `Governance`, `GovernanceRepos`, `GovernanceLaws`, `VerdictLaws`, `VoteCountLaws` |
| token metadata | `TokenMetadata`, `TextLaws` |
| block storage and synchronisation | `BlockParser`, `SystemLaws`, `SyncScheduler`, `RetryLaws` |

`dafny verify dfyconfig.toml` checks everything.

## What is proved

**The balance tables are a view of the unspent set, up to what was overwritten.** A block's delta map is
the difference of the unspent sums plus the value of live outputs that its `Put`s overwrite. Over every run
of any blocks, repeated ones and same-height forks included, each balance is the unspent sum plus the value
overwritten so far. So the "balance cannot be negative" exception is unreachable, and the balances are the
unspent sums, and the totals the supply, exactly as long as no transaction puts an output over a live one of
some value that it has not spent. Distinct transaction hashes are one way to ensure that; a repeated hash breaks
it, with a concrete chain as witness.

**What a transaction does is told from its members alone.** An output is spent exactly if some utxo that its owner
signs, in its asset, refers to its hash and that reference is not passed over: an all-zero hash, or number 1 of the
target of an unlocking, unstaking or undelegating transaction. What is made, what is written over and each delta are
told in the same way.

**The key-value store refines a map.** Formatting a key and parsing it back is the identity, for any hash.
Seeking a prefix and scanning while it lasts returns the live outputs of that hash, none missed and none
foreign, if and only if no live output's hash goes on behind the queried one with ':'. Such a nested hash
makes the scan throw in `stoul`, or makes it invent an output. A spend still does what it should if and only if
every nested output of the signer's is worth nothing and deletes nothing of anybody else's; with all references of
a block harmless in that sense the loops compute the book-keeping by hash, and the laws above need no more.

**The pool loses no slot, no connection and no wakeup.** The invariant holds in every reachable state of the
protocol, with timeouts, spurious wakes, failed connects, dropped sessions and barging threads: every open session
has exactly one owner, and `total_` is the number of open sessions and reserved slots. A session that is lent or
returned answers, has autocommit on and no transaction open, and a waiter times out only with every slot in use. The
class's methods are runs of protocol steps.

**Decoding inverts encoding.** Deployments, the four calls, token text and decimals. `ParseDeployment`
doubles offsets in `size_t`; the model wraps as the code does, and says exactly what is accepted (the layout, in
both directions) and exactly which inputs make it throw, with one of 512 digits as witness. Which calls move
anything, which make a fund record and which return data is text are if-and-only-ifs over the characters of the input;
text is what encodes Unicode scalar values.

**Governance only moves forward.** Verdicts on proposals and on revocations are final, fall in the first
block past the end time, and depend on earlier blocks' votes alone: votes of type 1 approve, of type 0 reject, and
rejecting votes alone leave a proposal missing. Over a run `vote_count` equals the recount
throughout if and only if each transaction passes, in its turn, a check on its hash, type and reference; a repeated
vote and a vote that adds "0x" to a bare hash are shown to break it.

**ERC-20 balances are conserved** against the recorded events, replay changes nothing, and an encoded
call moves exactly what it announces. Where the parameters announce nothing, every Transfer event of the log array
counts, under its position.

**A retry repeats itself.** A block whose business part throws leaves the progress alone, so the next round is
handed the blocks stored before it once more. From the state that ParseAndStore left, that round processes the
same blocks and throws at the same one, however often it is repeated. ERC-20 tables no longer change, while
balances drift exactly where a block overwrites something of value, and `vote_count` at every vote handed over
again. A block with a deployment that makes the scan throw is never committed.

Where code and documentation differ, the model follows the code. The comment on
`NormalizeProposalAsset` calls "0x" + hash equal to the proposal's hash; the code compares the text as
spelled, while the recount strips the prefix (`VoteCountLaws.PrefixedReferenceDrifts`). The scheduler records
the latest height also for a round that `Stop()` cut short (`SyncScheduler.StoppedRoundRecordsLatest`).

## Model

| member | source | states |
|---|---|---|
| UtxoStore.KeyInjective | src/utxo/utxo_store.cpp:33-35 | Two outputs have the same key string only if they are the same output, whatever their hashes contain |
| UtxoStore.KeySpelled | src/utxo/utxo_store.cpp:33-35 | Output 20 of utxo 1 of the transaction "ab" is stored under "ab:1:20" |
| Text.StoulReads | src/utxo/utxo_store.cpp:75-77 | White space, an optional sign and digits are read up to the first other character: the number if it is below 2^64, modulo 2^64 behind a minus sign |
| Text.OnlyNumbers | src/utxo/utxo_store.cpp:75-77 | Nothing else is read: whatever stoul accepts is of that form |
| UtxoStore.KeyRoundTrip | src/utxo/utxo_store.cpp:71-77 | What follows the hash in a key is parsed back into the two indices it was printed from |
| UtxoStore.KeyIsReadAs | src/utxo/utxo_store.cpp:66-77 | What the scan reads from the text of any key, of its own hash or another, told from the stored hash alone: skipped, unreadable, or two indices |
| UtxoStore.ScanIsExact | src/utxo/utxo_store.cpp:64-90 | A scan returns the live outputs of its hash and nothing else if and only if no live output has a hash nested in it, one that goes on with a colon behind it |
| UtxoStore.NestedScanInvents | src/utxo/utxo_store.cpp:66-77 | In a store that holds an output of "a:7" only, a scan for "a" returns output 7 of "a", which does not exist |
| UtxoStore.NestedKeyBlocks | src/utxo/utxo_store.cpp:75-76 | Beside an output of the hash h:x every scan for h throws |
| UtxoStore.UtxoStore.Put | src/utxo/utxo_store.cpp:37-47 | The abstract map gains or replaces exactly one output |
| UtxoStore.UtxoStore.Delete | src/utxo/utxo_store.cpp:49-62 | The abstract map loses exactly one output, and the result says whether it was there |
| UtxoStore.UtxoStore.GetUnspentByTx | src/utxo/utxo_store.cpp:64-90 | On any store: the scan throws exactly when a key in its way is unreadable, else lists everything under its prefix that it can read, once each, and that is exactly the live outputs of the hash if and only if no other is nested in it |
| UtxoProcessor.UtxoProcessor.SpendInput | src/utxo/utxo_processor.cpp:76-92 | On any store: one prevout takes what the scan reads for the signer and the asset out of the store, and its sum out of the deltas, unless the sum is zero or the scan throws |
| UtxoProcessor.UtxoProcessor.SpendInputs | src/utxo/utxo_processor.cpp:61-94 | The prevouts of one utxo up to the first exception, without those passed over (BlockLaws.EligibleExactly) and without repetitions |
| UtxoProcessor.UtxoProcessor.CreateOutputs | src/utxo/utxo_processor.cpp:99-113 | Outputs to real addresses enter the store and the deltas; outputs without an asset do not |
| UtxoProcessor.UtxoProcessor.ProcessBlock | src/utxo/utxo_processor.cpp:50-116 | The four nested loops compute the block function on the abstract unspent set, whatever the hashes contain; an exception leaves the store as far as they came; what the function does is BlockLaws.TransactionExactly and DeltaExactly |
| SpendLaws.SpendIsExact | src/utxo/utxo_processor.cpp:76-92 | On any store: one reference charges and deletes exactly what the signer has in that transaction if and only if no key in the way is unreadable and every nested output of the signer is worth nothing and deletes nothing of another owner (it deletes nothing where the signer has nothing of value there) |
| SpendLaws.PrevoutsExactly | src/utxo/utxo_processor.cpp:66-93 | The input loop is where the books are after every reference if and only if every reference that is scanned is harmless in its turn |
| SpendLaws.BlockExactly | src/utxo/utxo_processor.cpp:50-116 | The same for all references of a block |
| SpendLaws.WalkIsBooks | src/utxo/utxo_processor.cpp:50-116 | A block whose references are all harmless in their turn never throws and does to store and deltas what the book-keeping by hash says |
| SpendLaws.NestedSpendCharges | src/utxo/utxo_processor.cpp:76-92 | With nesting, spending "a" charges the owner of an output of "a:7", which stays in the store |
| BlockLaws.EligibleExactly | src/utxo/utxo_processor.cpp:66-74 | A reference is passed over exactly if its hash is all zeros, bare or behind "0x" or "0X", or if it is number 1 of the text in the first present redeem member of a transaction of type 3, 5 or 10 |
| BlockLaws.RedeemIsLeft | src/utxo/utxo_processor.cpp:72-73 | A redeeming transaction whose references are all number 1 of its target leaves every output and every delta; only what it makes comes on top |
| BlockLaws.ReferenceIsSpent | src/utxo/utxo_processor.cpp:76-92 | A single reference that is not passed over takes all the first owner has there in the asset, at its value, unless that is worth nothing |
| BlockLaws.TransactionExactly | src/utxo/utxo_processor.cpp:55-114 | The unspent set after a transaction from its members: what it makes to addresses that begin neither with "Virtual" nor with "LockVirtual"; of the rest, what was there, unless a utxo signed by its owner in its asset has a reference to its hash that is not passed over and the owner has something of value there |
| BlockLaws.OverwrittenExactly | src/utxo/utxo_processor.cpp:106-111 | A live output is written over exactly if the transaction makes one at its position and does not spend it |
| BlockLaws.UnspentIsSum | src/utxo/utxo_processor.cpp:76-85 | The sum of an address in an asset counts each of its outputs once, at its value |
| BlockLaws.DeltaExactly | src/utxo/utxo_processor.cpp:55-114 | The delta of a transaction is what the unspent sum gains, plus the worth of what it writes over |
| TransactionLaws.SpendUtxosAreSet | src/utxo/utxo_processor.cpp:59-94 | All input sides of a transaction together remove one set of outputs, in whatever order they come: the claimed ones whose owner has something of value in that transaction |
| TransactionLaws.TransactionEffect | src/utxo/utxo_processor.cpp:55-114 | The unspent set after a transaction, output by output: what it makes, else what was there and is not spent |
| TransactionLaws.TransactionLost | src/utxo/utxo_processor.cpp:106-111 | What a transaction overwrites is worth exactly the live outputs that it makes anew and has not spent |
| TransactionLaws.ReplacedExactly | src/utxo/utxo_processor.cpp:106-111 | A block loses value if and only if some transaction, when its turn comes, puts an output over a live one of some value that it has not spent |
| DeltaLaws.DeltasAreDifference | src/utxo/utxo_processor.cpp:51-116 | For every key the delta is the unspent sum after the block minus the sum before, plus what was overwritten |
| DeltaLaws.FreshDeltas | src/utxo/utxo_processor.cpp:107-111 | With fresh hashes and no index wrap nothing is overwritten, so the delta is the difference |
| DeltaLaws.PrevoutsAreSet | src/utxo/utxo_processor.cpp:66-93 | The input loop spends the set of hashes of its eligible prevouts, in one closed form |
| DeltaLaws.InputsDependOnHashSet | src/utxo/utxo_processor.cpp:66-93 | Two prevout lists with the same set of eligible hashes have the same effect, whatever their order and repetitions |
| DeltaLaws.DedupIsRedundant | src/utxo/utxo_processor.cpp:67-74 | Without the `seen` set store and deltas are the same |
| BalanceRepo.BalanceRepo.ApplyDeltas | src/storage/balance_repo.cpp:39-90 | In any iteration order: it throws exactly when some key would go below zero and then changes nothing, else every row gains its delta |
| BalanceRepo.FoldedUnique | src/storage/balance_repo.cpp:47-81 | The folded tables are determined by the old tables and the deltas, so the iteration order cannot matter |
| BalanceRepo.FoldedExactly | src/storage/balance_repo.cpp:47-81 | Deltas of "OHI" are added in the table by address, all others in the table by address and asset, and no other row changes |
| BalanceRepo.TotalAdds | src/storage/balance_repo.cpp:163-173 | A new row counts in the total of its own asset and in the total of everything |
| BalanceRepo.BalanceRepo.TotalBalance | src/storage/balance_repo.cpp:163-176 | The cursor loop returns the sum of the selected rows of the two tables |
| NativeLedger.NeverNegative | src/storage/balance_repo.cpp:56-59 | While no balance is below its unspent sum, no block can drive one below zero, so the throw is unreachable |
| NativeLedger.ExcessGrows | src/utxo/utxo_processor.cpp:106-111 | A block adds to the distance of each balance from its unspent sum exactly the value of what it overwrites |
| NativeLedger.DriftsExactly | src/utxo/utxo_processor.cpp:106-111 | A block moves some balance further above its unspent sum if and only if it overwrites something of value |
| NativeLedger.DriftOverRun | src/parser/block_parser.cpp:18-23 | Over every run of any blocks each balance is its unspent sum plus the value overwritten so far, which is never negative, and the next block cannot overdraw it |
| NativeLedger.ViewKeptExactly | src/utxo/utxo_processor.cpp:106-111 | A block keeps "balance = unspent sum" if and only if none of its transactions overwrites a live output of non-zero value |
| NativeLedger.RepeatedHashBreaksView | src/utxo/utxo_processor.cpp:107-111 | Two transactions of one hash leave a balance of 10 over an unspent sum of 5 |
| NativeLedger.ViewOverRun | src/parser/block_parser.cpp:18-23 | After n blocks of any run all balances are the unspent sums if and only if nothing of value was overwritten by then |
| NativeLedger.DistinctHashesKeepView | src/parser/block_parser.cpp:18-23 | In a run of distinct transaction hashes nothing is overwritten, so the balances are the unspent sums throughout |
| NativeLedger.TotalIsSupply | src/storage/balance_repo.cpp:163-176 | A total, of one asset or of everything for "", is never below the value of the unspent outputs, and equal to it if and only if every balance it adds up is its unspent sum |
| NativeLedger.SupplyOverRun | src/storage/balance_repo.cpp:163-176 | Over every run no total is below the supply, and the grand total is the supply if and only if nothing of value was overwritten; then so is every other |
| PoolProtocol.CountsStep | src/storage/db_pool.cpp:46-64 | No step of any thread breaks slot accounting or leaves a sleeper uncovered |
| PoolProtocol.NotifyKeepsCounts | src/storage/db_pool.cpp:98-98 | notify_one hands its pending wakeup to a sleeper or finds none |
| PoolProtocol.SoundStep | src/storage/db_pool.cpp:57-123 | No step gives an open connection a second owner, leaves it without one, or leaves a dirty session idle |
| PoolProtocol.ReachableInv | src/storage/db_pool.cpp:43-124 | Slot accounting within 0..pool_size, no lost wakeup, exactly one owner for every open session and clean idle sessions hold in every reachable state |
| PoolProtocol.SleeperIsCovered | src/storage/db_pool.cpp:52-54 | Beside a sleeper and free capacity some thread has been notified or is about to notify |
| PoolProtocol.IdleIsClean | src/storage/db_pool.cpp:107-122 | An idle connection has no owner, autocommit on and no open transaction |
| PoolProtocol.LentIsFresh | src/storage/db_pool.cpp:66-90 | In every run a session that comes into a borrower's hands answers, has autocommit on and no transaction open |
| PoolProtocol.ReturnedIsFresh | src/storage/db_pool.cpp:101-122 | In every run a session that becomes idle answers, has autocommit on and no transaction open, whatever its borrower left behind |
| PoolProtocol.TimeoutMeansFull | src/storage/db_pool.cpp:50-56 | In every run a waiter is sent away only past its deadline, when no connection is idle and every slot is in use |
| PoolProtocol.WithinSize | src/storage/db_pool.cpp:57-63 | `total_` is the number of open sessions plus the slots reserved for one not yet or no longer there, and never exceeds the pool size, so neither do the open sessions |
| DbPool.DbPool.TakeLocked | src/storage/db_pool.cpp:57-63 | The locked section pops the last idle connection or reserves a slot |
| DbPool.DbPool.DropSlot | src/storage/db_pool.cpp:93-99 | One slot less, as the two protocol steps of unlocking and notifying |
| DbPool.DbPool.Release | src/storage/db_pool.cpp:101-124 | A live connection that can be reset goes back with autocommit on and its transaction rolled back, any other is dropped with its slot; the call is a run of protocol steps |
| DbPool.DbPool.Attempt | src/storage/db_pool.cpp:46-90 | One iteration lends, fails or drops one dead connection |
| DbPool.DbPool.Acquire | src/storage/db_pool.cpp:43-91 | Alone it lends the last idle connection that answers, having closed the dead ones behind it, or connects if a slot is free, in at most one iteration more than there are idle connections; the session lent has autocommit on and no open transaction |
| Text.LowerExactly | src/storage/erc20_parameter_parser.cpp:17-21 | Capital letters move up by 32 places in ASCII and nothing else moves |
| Text.DigitExactly | src/storage/erc20_parameter_parser.cpp:37-39 | Hexadecimal digits and their values by ASCII code |
| Erc20Parser.HexToDec | src/storage/erc20_parameter_parser.cpp:34-44 | Hexadecimal digits are printed in decimal, anything else yields "" |
| Erc20Parser.WordToSize | src/storage/erc20_parameter_parser.cpp:46-58 | A 64-digit lower-case word is read if it fits a size_t |
| Erc20Parser.ParseDeployment | src/storage/erc20_parameter_parser.cpp:69-122 | The scan returns the mint, or throws, at the first even start that passes or throws, and nothing if there is none |
| DeploymentLaws.DynamicEndPlain | src/storage/erc20_parameter_parser.cpp:95-105 | Away from the wrap a tail is accepted exactly when its length word is readable and its padded content fits |
| DeploymentLaws.HeadExactly | src/storage/erc20_parameter_parser.cpp:82-92 | The fixed checks hold exactly for seven words with 224 in the first, numbers below 2^64 in lower-case digits in the second, third and fifth, the third at most 255, 24 zero digits in front of the last two, and ascending offsets that are multiples of 32 |
| DeploymentLaws.SliceThrowsExactly | src/storage/erc20_parameter_parser.cpp:97-100 | A length word is looked for past the input exactly when the doubled offset wraps to 2^64 - 64 and the head is among the first 64 digits; every other slice lies inside |
| DeploymentLaws.ThrowsExactly | src/storage/erc20_parameter_parser.cpp:77-114 | A candidate start ends the scan with an exception if and only if its head begins among the first 64 digits, the name is there, and the symbol offset doubles to 2^64 - 64, or the symbol is there too and the url offset does |
| DeploymentLaws.DeploymentThrowsExactly | src/storage/erc20_parameter_parser.cpp:69-122 | For every input: the whole scan throws if and only if the first start it stops at has such a head; it stops at even starts with such a head or with the layout |
| DeploymentLaws.SomeInputThrows | src/storage/erc20_parameter_parser.cpp:97-100 | An input of 512 digits that makes it throw for every non-empty recipient |
| DeploymentLaws.AcceptedExactly | src/storage/erc20_parameter_parser.cpp:77-114 | A candidate start is accepted if and only if it is a proper head, by its words, followed by three length-prefixed tails laid end to end, with no gap or overlap, up to the end of the input |
| DeploymentLaws.OffsetsPointAtTails | src/storage/erc20_parameter_parser.cpp:111-112 | The offset words of an accepted head point at its tails, modulo the 2^63 that doubling in size_t cannot tell apart |
| DeploymentLaws.StopsExactly | src/storage/erc20_parameter_parser.cpp:77-114 | The scan goes past a start unless it is even and its head has the layout or runs past the input |
| DeploymentLaws.DeploymentMintsExactly | src/storage/erc20_parameter_parser.cpp:69-122 | For every input: the scan mints if and only if the first start it stops at has the layout and a non-zero supply, and then the supply word of that head to its owner word |
| DeploymentLaws.DeploymentRoundTrip | src/storage/erc20_parameter_parser.cpp:74-119 | Bytecode followed by the encoded seven arguments gives a mint of exactly the supply to the owner, unless an earlier even start of the input has the layout as well or runs past it |
| CallLaws.NormalForm | src/storage/erc20_parameter_parser.cpp:23-32 | Lower-case digits are their own normal form, bare or behind "0x" or "0X" |
| CallLaws.NormalizeExactly | src/storage/erc20_parameter_parser.cpp:23-32 | Only hexadecimal digits behind an optional "0x" or "0X" are read, and capitals come out 32 places up in ASCII |
| CallLaws.AmountText | src/storage/erc20_parameter_parser.cpp:34-44 | Amounts 1..2^256-1 print exactly, in at most 78 digits |
| CallLaws.TransferRoundTrip | src/storage/erc20_parameter_parser.cpp:139-142 | Decoding an encoded transfer returns sender, recipient and amount, for all addresses and amounts |
| CallLaws.TransferFromRoundTrip | src/storage/erc20_parameter_parser.cpp:143-147 | Decoding an encoded transferFrom returns both accounts and the amount |
| CallLaws.FlowInRoundTrip | src/storage/erc20_parameter_parser.cpp:148-152 | Decoding an encoded FlowIn returns a burn of the amount by the sender |
| CallLaws.FlowOutRoundTrip | src/storage/erc20_parameter_parser.cpp:153-158 | Decoding an encoded FlowOut returns a mint of the amount to the account |
| CallLaws.AcceptedIsWellFormed | src/storage/erc20_parameter_parser.cpp:126-168 | Whatever the parameters announce names the contract and two accounts and moves a positive amount below 2^256 in plain decimal |
| CallLaws.CallExactly | src/storage/erc20_parameter_parser.cpp:126-168 | A call announces a movement if and only if its data begins with one of the four selectors, has all its words, twelve zero bytes in front of each account, a non-zero amount, a sender where one is needed and, for the two flows, their call type; every other call announces nothing |
| CallLaws.OtherTypesAnnounceNothing | src/storage/erc20_parameter_parser.cpp:128-128 | Transactions of other types than 7 and 8 announce nothing |
| FundParser.HexToDecimal | src/parser/parsers/fund_parser.cpp:12-22 | Shift-and-add prints the same decimal text as the other digit loops |
| CallLaws.FundRoundTrip | src/parser/parsers/fund_parser.cpp:26-60 | An encoded transfer is read back as its recipient and amount, zero included, unless it is spelled "0X" |
| CallLaws.FundExactly | src/parser/parsers/fund_parser.cpp:26-60 | A fund record is made if and only if the transaction is a call with the transfer selector behind an optional lower-case "0x", both words there and an amount in digits |
| CallLaws.FundAgrees | src/parser/parsers/fund_parser.cpp:37-57 | For every accepted transfer the fund parser makes a record if and only if the input is not spelled "0X", with the same recipient and amount |
| Erc20Ledger.LooseHexToDec | src/storage/balance_repo.cpp:25-33 | Log data is read leniently: other characters are skipped, an x starts over |
| Erc20Ledger.HexReadersAgree | src/storage/balance_repo.cpp:25-33 | On hexadecimal digits, bare or behind "0x", it prints what the strict readers print |
| Erc20Calls.LooseHexExactly | src/storage/balance_repo.cpp:25-33 | The number read is that of the hexadecimal digits behind the last x, whatever stands between them |
| Erc20Calls.TopicExactly | src/storage/balance_repo.cpp:21-24 | An address is the last 40 characters of a topic in lower case, and unreadable if there are fewer |
| Erc20Ledger.Erc20Ledger.ApplyTransfer | src/storage/balance_repo.cpp:185-212 | One movement: contract row, event row, debit, credit, or an exception for a negative balance |
| Erc20Ledger.Erc20Ledger.ApplyLogs | src/storage/balance_repo.cpp:224-237 | The transfer logs, each under its position in the whole array, up to the first exception |
| Erc20Ledger.Erc20Ledger.ApplyErc20Transfers | src/storage/balance_repo.cpp:178-238 | Parameters take precedence, logs are the fallback (Erc20Calls.OneMoreLog), other types do nothing |
| Erc20Laws.MovementEffect | src/storage/balance_repo.cpp:198-211 | A new event throws exactly when a real sender cannot pay, else every account changes by its debit and credit |
| Erc20Laws.MovementRows | src/storage/balance_repo.cpp:198-211 | Both accounts get rows, but neither the zero address nor an unreadable one does, and those can always pay |
| Erc20Laws.AgainRegisters | src/storage/balance_repo.cpp:190-197 | A movement whose event is on record registers its contract and does nothing else |
| Erc20Laws.OnlyHoldersHold | src/storage/balance_repo.cpp:198-199 | After any run neither the zero address nor an unreadable account has a balance row |
| Erc20Laws.SelfTransfer | src/storage/balance_repo.cpp:211-211 | A transfer to oneself changes no balance |
| Erc20Laws.MovementSupply | src/storage/balance_repo.cpp:185-212 | A contract's total changes by what a new event mints or burns, and not at all for a known one |
| Erc20Laws.RecordIsEventTable | src/storage/balance_repo.cpp:194-197 | The recorded movements are the new rows of the event table, each key once |
| Erc20Laws.Conservation | src/storage/balance_repo.cpp:178-238 | After any run from empty tables a contract's balances add up to what recorded events credited from void accounts minus what they debited to them |
| Erc20Laws.ReplayChangesNothing | src/storage/balance_repo.cpp:194-197 | A transaction applied again at any later point of a run changes no row and does not throw |
| Erc20Calls.LogRoundTrip | src/storage/balance_repo.cpp:231-235 | An encoded Transfer log is read back as its accounts and amount |
| Erc20Calls.AnnouncedMoves | src/storage/balance_repo.cpp:214-220 | What the parameters announce is what moves, or the transaction throws exactly when the sender cannot pay; logs are not looked at |
| Erc20Calls.AnnouncedIsRecorded | src/storage/balance_repo.cpp:185-218 | It is recorded as event 0 of the transaction, and a new contract is registered with its deployment and deployer |
| Erc20Calls.OneMoreLog | src/storage/balance_repo.cpp:222-237 | Where the parameters announce nothing, one more log is applied to what the others led to if its topic is that of Transfer, under its position in the whole array, and is skipped otherwise |
| Erc20Calls.LogMoves | src/storage/balance_repo.cpp:222-237 | One encoded Transfer event among other logs throws exactly when its sender cannot pay, else moves its amount and nothing else, registers its contract and is recorded under its position |
| Erc20Calls.BothLogsMove | src/storage/balance_repo.cpp:227-237 | Two Transfer events of one transaction both count, whatever logs stand between them |
| Erc20Calls.OtherTypesMoveNothing | src/storage/balance_repo.cpp:180-183 | Transactions of other types, or without readable data, move nothing |
| Erc20Calls.TransferMoves | src/storage/balance_repo.cpp:178-220 | An encoded transfer moves exactly its amount and no other balance |
| Erc20Calls.DeploymentMints | src/storage/balance_repo.cpp:178-220 | An encoded deployment never throws, registers the contract and adds exactly the supply to the owner and to the contract's total |
| GovernanceRepos.VoteRepo.Insert | src/storage/vote_repo.cpp:16-30 | A vote is stored unless its hash is taken |
| GovernanceRepos.VoteRepo.ReadVoteStats | src/storage/proposal_repo.cpp:61-77 | Approving and rejecting numbers and distinct addresses of the votes whose normalised reference matches, told vote by vote by VerdictLaws.TallyAdds and VotersAdd |
| VerdictLaws.TallyAdds | src/storage/proposal_repo.cpp:61-73 | The number of a vote type is zero without votes, and one more vote adds its number exactly if it is of that type and refers to the target, both up to case and without "0x"; type 1 approves, type 0 rejects |
| VerdictLaws.VotersAdd | src/storage/proposal_repo.cpp:65-74 | The voters are the addresses, up to case, of the votes of any type that refer to the target |
| GovernanceRepos.ProposalRepo.Insert | src/storage/proposal_repo.cpp:100-113 | A proposal is stored unless its asset or its hash is taken |
| GovernanceRepos.ProposalRepo.ScheduleRevoke | src/storage/proposal_repo.cpp:115-130 | Only the revocation columns of the named asset change |
| GovernanceRepos.ProposalRepo.IncrementVoteCount | src/storage/proposal_repo.cpp:224-232 | Only the counter of the named asset changes |
| GovernanceRepos.ProposalRepo.PassedAtBlock | src/storage/proposal_repo.cpp:79-95 | Readiness and verdict of one information record |
| GovernanceRepos.ProposalRepo.FinalizeNativeFlow | src/storage/proposal_repo.cpp:132-222 | Whatever order the selected rows come in, every row ends as its own verdict says |
| VerdictLaws.RowExactly | src/storage/proposal_repo.cpp:132-222 | The whole row after a finalisation, in the members of the row and the counts of its votes |
| VerdictLaws.VerdictExactly | src/storage/proposal_repo.cpp:145-195 | A pending proposal becomes missing without information, ineligible for a cross-chain type other than 0 and 2, stays pending until past its end, and then becomes active exactly if it has not expired, has enough voters and more approving than rejecting numbers |
| VerdictLaws.RevocationExactly | src/storage/proposal_repo.cpp:196-218 | An active proposal is revoked exactly if a revocation is on record, past its end and carried by the votes for the revoking transaction |
| VerdictLaws.RejectedIsMissing | src/storage/proposal_repo.cpp:79-95 | Over every run: a proposal nobody has approved is missing once its end is past |
| VerdictLaws.ApprovedIsActive | src/storage/proposal_repo.cpp:79-95 | Over every run: one with approving votes only, from enough voters and not expired, is active |
| GovernanceRepos.ProposalModule.Process | src/parser/parsers/proposal_module.cpp:9-36 | Naming of proposals and scheduling of revocations |
| GovernanceRepos.VoteModule.Process | src/parser/parsers/vote_module.cpp:9-21 | The vote row and the counter move together, the counter also when the row is dropped |
| VerdictLaws.ProposalEnters | src/parser/parsers/proposal_module.cpp:9-26 | A transaction of type 11 with an owner enters as the row "OHI" if that is the first, else under its hash, unless the name or the hash is taken |
| VerdictLaws.RevocationEnters | src/parser/parsers/proposal_module.cpp:28-34 | A transaction of type 12 puts its revocation on record for the asset it names, "0xOHI" and "0XOHI" being the first one |
| VerdictLaws.VoteEnters | src/parser/parsers/vote_module.cpp:9-21 | A transaction of type 13 enters as a vote unless its hash is taken, and its number is added to the asset it names either way |
| VerdictLaws.OthersDoNothing | src/parser/parsers/vote_module.cpp:9-12 | Every other transaction leaves proposals and votes alone |
| VerdictLaws.VotesAreCast | src/parser/parsers/vote_module.cpp:9-21 | Over every run: each vote on record before a block was cast by a transaction of an earlier one |
| GovernanceLaws.BlockIsOneEdge | src/storage/proposal_repo.cpp:145-220 | A block moves a proposal along at most one edge, pending to a verdict or active to revoked |
| GovernanceLaws.Finality | src/storage/proposal_repo.cpp:132-222 | Over all runs missing, ineligible and revoked are terminal, active only becomes revoked, nothing returns to pending |
| GovernanceLaws.RowsOverRun | src/parser/parsers/proposal_module.cpp:14-26 | In every reachable state is_revoked means revoked, tx_info is present, and exactly the first proposal is OHI |
| GovernanceLaws.VerdictTiming | src/storage/proposal_repo.cpp:79-95 | An eligible proposal stays pending through the blocks not past its end and is decided by the first one past it, on the votes before that block |
| GovernanceLaws.NeverDecided | src/storage/proposal_repo.cpp:85-87 | Without an end time, or with zero, a proposal stays pending for ever |
| GovernanceLaws.VerdictIgnoresOwnBlock | src/parser/block_parser.cpp:31-40 | Two blocks of the same height and time take the same verdicts whatever transactions they hold |
| GovernanceLaws.VotesAreEarlierBlocks | src/parser/block_parser.cpp:31-40 | The votes on record before a block are exactly those of earlier blocks, each as first recorded |
| GovernanceLaws.RevokeVerdict | src/storage/proposal_repo.cpp:196-218 | An active proposal is revoked by a block exactly when its revocation is due and passes |
| GovernanceLaws.LastRevocationCounts | src/parser/parsers/proposal_module.cpp:28-34 | The last revocation of a proposal in a block is the one on record after it, also of a proposal made earlier in that block |
| GovernanceLaws.RevocationTiming | src/storage/proposal_repo.cpp:115-218 | The last revocation recorded while a proposal is pending or active is decided by the first block past its own end that finds the proposal active, on earlier blocks' votes for the revoking transaction; until then the proposal stays active |
| VoteCountLaws.NormalisationsAgree | src/storage/proposal_repo.cpp:20-28 | The two spellings of the reference normalisation differ on the bare prefix only |
| VoteCountLaws.ReferenceResolves | src/parser/parsers/proposal_common.h:9-14 | A vote's counter and its recount name the same proposal, except for the bare prefix |
| VoteCountLaws.TxExact | src/parser/parsers/vote_module.cpp:12-19 | The exact condition under which a transaction keeps every vote_count equal to its recount |
| VoteCountLaws.RunExact | src/parser/parsers/vote_module.cpp:12-19 | Over a whole run every vote_count is its recount after every transaction if and only if each transaction meets that condition in its turn |
| VoteCountLaws.CountsOverRun | src/parser/parsers/vote_module.cpp:12-19 | Over every orderly run vote_count is the sum of approving and rejecting numbers |
| VoteCountLaws.RepeatedVoteDrifts | src/parser/parsers/vote_module.cpp:12-19 | The same vote twice counts 6 against a recount of 3 |
| VoteCountLaws.ReplayedVoteDrifts | src/parser/parsers/vote_module.cpp:12-19 | Any vote already on record that is handed over again for a proposal breaks the agreement of counter and recount |
| VoteCountLaws.PrefixedReferenceDrifts | src/parser/parsers/proposal_common.h:9-14 | A vote that adds "0x" to a bare hash is recounted and not counted |
| TokenMetadata.DecodeTokenText | src/api/token_metadata.cpp:22-44 | The loop decodes the bytes of the text and rejects what is empty, unprintable or not UTF-8 |
| TokenMetadata.TextIsValid | src/api/token_metadata.cpp:33-43 | Only printable well-formed text of 1 to 1024 bytes is returned |
| TextLaws.Utf8Exactly | src/api/token_metadata.cpp:42-42 | The accepted bytes are exactly the UTF-8 encodings of sequences of scalar values, so no overlong form, surrogate or cut sequence is accepted and nothing else is rejected |
| TextLaws.TextExactly | src/api/token_metadata.cpp:8-44 | For every return data: it is this text if and only if it is "0x" and an even number of 64 to 65536 digits that hold the text up to the first zero byte of one word, or behind offset 32 and a length of at most 1024, and the text is not empty, has no control character and encodes scalar values |
| TokenMetadata.TextRoundTrip | src/api/token_metadata.cpp:25-43 | A dynamic encoding decodes to its text exactly when its offset is 32 and the text is valid and at most 1024 bytes; else it throws |
| TokenMetadata.Bytes32Prefix | src/api/token_metadata.cpp:33-39 | The one-word form yields its bytes up to the first zero, if they are valid text |
| TokenMetadata.Bytes32RoundTrip | src/api/token_metadata.cpp:33-43 | Valid text of 1 to 32 bytes survives the one-word form |
| TokenMetadata.AsciiIsValid | src/api/token_metadata.cpp:36-42 | All printable ASCII is valid text |
| TokenMetadata.DecimalsExact | src/api/token_metadata.cpp:46-52 | Decimals are accepted exactly when the data is one word of value at most 255 |
| TokenMetadata.DecimalsRoundTrip | src/api/token_metadata.cpp:46-52 | 0..255 are read back, every larger word is rejected |
| SyncScheduler.SyncScheduler.Round | src/fetcher/sync_scheduler.cpp:27-49 | One pass fetches, hands over and records as the round function says, and leaves the progress alone on an exception |
| SyncScheduler.SyncScheduler.constructor | src/fetcher/sync_scheduler.cpp:9-18 | The batch size is the configured one, or 1 if that is less |
| SyncScheduler.ProgressExactly | src/fetcher/sync_scheduler.cpp:29-46 | Progress never falls back; it moves to latest exactly when that is ahead and nothing throws; where latest is not ahead nothing is fetched |
| SyncScheduler.PlanTiles | src/fetcher/sync_scheduler.cpp:34-43 | The batches are adjacent, ascending, at most batch_size long and end at latest |
| SyncScheduler.PlanCovers | src/fetcher/sync_scheduler.cpp:34-43 | Every missing height lies in one of the batches |
| SyncScheduler.FetchesFollowPlan | src/fetcher/sync_scheduler.cpp:35-43 | Whatever fails or stops, the ranges asked for are the first batches |
| SyncScheduler.CompleteExactly | src/fetcher/sync_scheduler.cpp:35-43 | A round without exception processed everything if and only if every batch could be fetched and the flag stayed set for one read per batch and one per block |
| SyncScheduler.RoundIsCompleteExactly | src/fetcher/sync_scheduler.cpp:33-46 | An exception leaves the progress, any other end records latest, and the record is honest exactly when every batch could be fetched and the flag was read as set often enough |
| SyncScheduler.StoppedRoundRecordsLatest | src/fetcher/sync_scheduler.cpp:33-46 | Stopped before its first batch a round asks for nothing, processes nothing and records latest all the same |
| SyncScheduler.EveryHeightHanded | src/fetcher/sync_scheduler.cpp:27-49 | Over any number of rounds not stopped midway every height up to the progress was fully processed by some round |
| SyncScheduler.RoundReplays | src/fetcher/sync_scheduler.cpp:33-49 | A round depends on the parser only through the blocks it processes and the next one |
| BlockParser.BlockParser.ProcessBusiness | src/parser/block_parser.cpp:31-40 | Verdicts first, then each transaction's ERC-20 movements and modules, up to the first exception |
| BlockParser.BusinessSplits | src/parser/block_parser.cpp:34-40 | The interleaved transaction loop is the ERC-20 run and the governance run side by side |
| BlockParser.BlockParser.ParseAndStore | src/parser/block_parser.cpp:18-52 | Outputs, balances, business part, on any hashes; an exception of the outputs or balances ends the block, one of the business part rolls back the business tables and nothing else |
| BlockParser.StoredIsNext | src/parser/block_parser.cpp:18-52 | For a block of harmless references that is one step of the native ledger, and the outcome is decided by balances and business part |
| SystemLaws.NativeInvariant | src/parser/block_parser.cpp:18-23 | After any blocks, repeated ones and ones whose business part threw included, each balance is its unspent sum plus the value overwritten so far |
| SystemLaws.ViewOfSystem | src/parser/block_parser.cpp:18-23 | The stored balances are the unspent sums if and only if nothing of value was overwritten, and then every total is the supply |
| SystemLaws.OnlyBusinessThrows | src/parser/block_parser.cpp:18-52 | In any sequence of blocks, repeated ones included, a block fails exactly when its business part throws |
| SystemLaws.NoTransaction | src/parser/block_parser.cpp:31-33 | A block without transactions takes its verdicts and nothing else |
| SystemLaws.OneMoreTransaction | src/parser/block_parser.cpp:34-40 | One more transaction in a block is applied to what the others led to: its ERC-20 movements, with the log array under its own hash, and then proposals and votes |
| SystemLaws.UnnestedIsHarmless | src/utxo/utxo_store.cpp:66-69 | In a chain in which no hash goes on with a colon behind another that is referred to, every reference is harmless |
| SystemLaws.BusinessIsCommitted | src/parser/block_parser.cpp:27-52 | The business tables are those of the committed blocks alone |
| SystemLaws.Erc20Invariant | src/parser/block_parser.cpp:34-40 | Conservation for the stored ERC-20 tables after any sequence of blocks |
| RetryLaws.TakingIsStoring | src/parser/block_parser.cpp:18-52 | What ParseAndStore, with outputs and balances, makes of the blocks of a round is what the business tables alone decide: stored without an exception they are committed, and the next is stored if and only if it would be |
| RetryLaws.StoredRoundRepeats | src/fetcher/sync_scheduler.cpp:27-49 | What a round processes is stored without an exception; when the next block throws, the same round from the state ParseAndStore left is the same again |
| RetryLaws.EveryAttemptFails | src/parser/block_parser.cpp:18-52 | While the blocks up to one that threw are handed over again and again, each fares as it did the time before, and no attempt after the first changes the ERC-20 tables |
| RetryLaws.RetriesNeverPass | src/fetcher/sync_scheduler.cpp:27-49 | However often a round that threw is repeated, from the state its last exception left, it processes the same blocks, throws again and the progress stays |
| RetryLaws.RepeatedBlockDrifts | src/parser/block_parser.cpp:18-23 | A block stored again moves some balance further above its unspent sum if and only if one of its transactions overwrites something of value that the first time left live |
| RetryLaws.UnreadableIsNeverCommitted | src/parser/block_parser.cpp:27-52 | A block with a transaction whose movements cannot be read throws from every state and leaves the business tables |
| RetryLaws.ThrowingDeploymentIsNeverCommitted | src/parser/block_parser.cpp:27-52 | So does a block with a deployment at which the scan of the constructor arguments throws |

## Left out

- SpendLaws.WalkIsBooks: for blocks whose references are harmless in their turn, as are the native laws of SystemLaws; a harmful reference makes store or deltas differ from the books right there (SpendLaws.SpendIsExact, SpendLaws.BlockExactly), and what the scan then does is stated exactly (UtxoStore.KeyIsReadAs).
- RetryLaws.StoredRoundRepeats: the node answers the retry as it answered before, and the round reads the stop flag as often.
- DeploymentLaws.DeploymentMintsExactly: for inputs shorter than 2^62 characters, more than a std::string holds in practice; the other deployment laws have the same bound.
- NativeLedger.ViewOverRun: assumes container indices below 2^32, as do the other laws that tell from the block what is overwritten; the drift itself (NativeLedger.DriftOverRun) does not.
- SyncScheduler.SyncScheduler.Round: heights are unbounded naturals, so the wrap of `begin + batch_size_ - 1` near 2^64 is not modelled; one pass of the polling loop is a method, its repetition a sequence.
- DbPool.DbPool.Acquire: one thread before its deadline; other threads, deadlines and wakes are steps of PoolProtocol.
- PoolProtocol.IdleIsClean: a borrower opens transactions by turning autocommit off; an explicit START TRANSACTION with autocommit on, which the repository never issues, is not modelled.
- GovernanceRepos.ProposalRepo.PassedAtBlock: reads succeed; the catch-all that turns a database failure into "missing" is not modelled.
- GovernanceRepos.VoteRepo.ReadVoteStats: vote numbers and sums are unbounded naturals; 64-bit overflow in MySQL is not modelled.
- UtxoStore.UtxoStore.SortedKeys: stands for the RocksDB iterator and returns the keys in byte order by selecting minima.
- RocksDB and MySQL internals, SQL text, row locks, column widths and collation: tables are maps with the schema's unique keys and exact string equality.
- JSON and decimal parsing: parsed members and natural numbers are inputs; values are never negative.
- The constructor check of DbPool's configuration; the pool has at least one slot.
- A crash between the RocksDB writes and the SQL commit; what storing a block again does is in RetryLaws.
- The block table and the other business modules (staking, investment, locking, claims, contracts, funds storage, transaction records), which add easy members.
- TokenMetadataReader's cache and clock, HTTP, controllers, logging, configuration and threads: plumbing.
