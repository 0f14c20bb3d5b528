# benchblock verification

A Dafny model of the parts of benchblock that have to be right for a benchmark to mean something: the concurrent
load run of `bbeth`, the collector that watches the chain and fills the results table, the statistics computed
from that table, and the configuration store that travels through the shell.

Check it with `dafny verify dfyconfig.toml`.

## What is modelled

**The load run.** `LoadModel.dfy` is a transition system: the main goroutine and its WaitGroup, any number of
adder goroutines, the ticker with its one-slot channel, the network, the chain and the collector. Every atomic
action is a step, any interleaving is a run, and the environment is as free as it is in practice: a send may be
accepted and yet be reported as an error, or reach a node long after the client gave up; a node may show an old
head; any subset of the pending transactions may be mined, next to transactions of others; any read may fail.
`LoadInvariants.dfy` shows what each step keeps, `LoadGrid.dfy` follows the attempts over the grid of threads,
batches and accounts, `LoadTheorems.dfy` states what holds in every reachable state, `LoadBurst.dfy` says
for which configurations the natural window bound on the send rate holds, `LoadEnd.dfy` that no reachable state
is stuck, and `LoadSuccess.dfy` that the collector acts on what it reads and every target can be met, all with the
moves of `LoadMoves.dfy`. `Adder.dfy` is the code of one adder, with
the nonces it updates in place, and shows that every adder of a run is where that code is for the outcomes it had.

**Arithmetic of the run.** `ConfigTx.dfy` truncates the target, `Nodes.dfy` spreads connections over nodes,
`Rpc.dfy` has the retry loops and their backoff.

**The results.** `Collector.dfy` is `Collect` as a method over a shared meter (`Progress.dfy`) and table
(`BlockDB.dfy`), proved against a scan one block at a time; `Stats.dfy` relates its counter to the SQL
statistics; `BlockFrame.dfy` has block times and rolling rates over exact reals.

**The configuration store.** `Shell.dfy` is the printer `shlex.quote` and an independent reader: quote removal,
field splitting, `eval` and `export` of the POSIX shell (sections 2.2 and 2.6.5 of the Shell Command Language,
IEEE Std 1003.1-2017). `ConfigStore.dfy` exports, `ConfigUpdate.dfy` updates and layers.

## Where the code does not do what its text says

- A target below threads * accounts becomes 0, not the promised minimum (`ConfigTx.MinimumPromiseKeptExactlyWhen`;
  with the default threads and accounts 50 becomes 0, `ConfigTx.MinimumPromiseBroken`), and a run with target 0 is
  complete at the first block scanned (`Collector.ZeroTargetStopsAtFirstBlock`).
- The start block, "first block to collect", is itself never collected (`Collector.StartBlockIsExclusive`).
- "endblock set, ignoring numtransactions" is true of a scan if and only if the meter has no target or the first
  block scanned is already the end block or past it (`Collector.EndBlockOverridesTargetExactlyWhen`). A meter given
  by `WithProgress`, or made by `WithProgress(nil)`, keeps its target.
- The limiter bounds the ticks received in a window of d ns by floor(d / period) + 2, but not the sends: a goroutine
  can be held up between its tick and its send, while another tick waits in the channel. For sends that bound holds
  if and only if the run has at most two attempts, or one thread and a period of 1 ns
  (`LoadBurst.WindowBoundHoldsExactlyWhen`). All threads can start a send at one instant, for every period
  (`LoadBurst.BurstOfAllThreads`); what always holds counts the adders holding a tick (`LoadTheorems.WindowBound`).
- The exports are described as eval safe. They are for `eval "$(...)"`
  (`ConfigStore.QuotedEvalReadsBack`); the unquoted `eval $(...)` the tuskfiles use squeezes blanks,
  and gives a value back exactly when its blanks are isolated spaces (`ConfigStore.UnquotedEvalRecoversExactly`).
- Every update in the tuskfiles follows such an unquoted eval, so it rewrites values nobody has changed: "a  b" becomes
  "a b" (`ConfigUpdate.UnquotedPassRewrites`). A pass changes no more than the spelling of truth values if and only if
  every text it writes back has isolated spaces for blanks, or another form is used
  (`ConfigUpdate.PassKeepsTextsExactlyWhen`). A second pass changes nothing in any form.
- `update` says that every listed variable that is set and not empty is written back, but it leaves hyphens in the
  names it looks up where the export turned them into underscores. In an environment of shell variables a key gets its
  variable's value if and only if it has no hyphen, or had that value before (`ConfigUpdate.WritesBackExactlyWhen`,
  with `ConfigUpdate.HyphenIsNotWrittenBack` for a value that is lost). For the same reason it adds a key that differs
  from an existing one only in that (`ConfigUpdate.PassNormalises`, `ConfigUpdate.UnderscoreAliasesHyphen`).

## Model

| member | source | states |
|---|---|---|
| ConfigTx.ConfigTransactions.TruncateTargetTransactions | go/bbeth/collect/configtx.go:22-43 | Leaves the truncated target in the configuration and returns exactly what was taken away, less than threads * accounts for a target that is not negative |
| ConfigTx.ConfigTransactions.TruncateByCommandAndLoader | go/bbeth/cmd/loadercmd.go:126-130 | The command and NewLoader both truncate: the second call changes nothing |
| ConfigTx.RemainderIsNotDivisor | go/bbeth/collect/configtx.go:32-34 | The branch for a too small target is unreachable |
| ConfigTx.TruncatedIsGreatestMultiple | go/bbeth/collect/configtx.go:19-43 | The result is the greatest multiple of threads * accounts not above a target that is not negative |
| ConfigTx.TruncationIsIdempotent | go/bbeth/load/load.go:165-169 | Truncating again changes nothing, for every target and sign |
| ConfigTx.MinimumPromiseKeptExactlyWhen | go/bbeth/collect/configtx.go:15-16 | The promised minimum of one transaction per account is kept if and only if the request reaches it; below, the target becomes 0 |
| ConfigTx.MinimumPromiseBroken | go/bbeth/collect/configtx.go:15-16 | A concrete request below the minimum that becomes 0 |
| ConfigTx.TruncatedTargetSplitsEvenly | go/bbeth/load/load.go:293-296 | After truncation threads, batches and accounts multiply to the target, and each thread gets its even share |
| Progress.TransactionProgress.MinedComplete | go/bbeth/client/progress.go:85-96 | Adds to the counter whether or not bars are shown, and reports completion exactly when a target is set and reached |
| Progress.TransactionProgress.CurrentMined | go/bbeth/client/progress.go:137-142 | The bar's count, -1 without a bar |
| BlockDB.Table.Insert | go/bbeth/collect/blockdb.go:110-121 | Succeeds exactly for a new block number in a writable table, and never replaces a row |
| BlockDB.GetBlocks | go/bbeth/collect/blockdb.go:123-182 | Visits start..end in order once each, stopping at the first failed fetch, with one line and one insert per block; the error cases exactly |
| BlockDB.DeltasTelescope | go/bbeth/collect/blockdb.go:141-173 | From block 1 on, with times int64 can hold, no delta is NaN and they sum to time(end) - time(start-1) |
| BlockDB.LineIs | go/bbeth/collect/blockdb.go:141-173 | For any times: NaN exactly for a first block 0 or after a time that int64 reads as -1, else the difference modulo 2^64 |
| BlockDB.FirstDeltaFromGenesis | go/bbeth/collect/blockdb.go:141-172 | From block 0, only the first delta is NaN |
| Collector.Collector.constructor | go/bbeth/collect/collect.go:60-93 | A meter given by WithProgress keeps its target, so does the one made by WithProgress(nil); only without that option an end block drops the target |
| Collector.Collector.Collect | go/bbeth/collect/collect.go:143-234 | For every script of heads, blocks, failed reads and failed inserts: last block, counter, table and way of ending are those of the reference scan folded over the polls |
| Collector.PollingScheduleIndependence | go/bbeth/collect/collect.go:186-233 | Whatever heads are observed, with repeats and regressions, the outcome is the one-block-at-a-time scan to their maximum; a failed poll only ends it there |
| Collector.CollectionBegins | go/bbeth/collect/collect.go:177-205 | Collection begins one past the configured start block, or one past the head read first; no earlier block gains a row, and if that read fails nothing is collected |
| Collector.ScansCompose | go/bbeth/collect/collect.go:186-233 | A scan to one head and then to another is one scan to the higher |
| Collector.ScanIsCut | go/bbeth/collect/collect.go:205-232 | The scan ends at the least block after its start that reaches the target or the end block, or before the first failed fetch, or at the head; counter and rows are exactly those of its range |
| Collector.CutIsUnique | go/bbeth/collect/collect.go:205-232 | That description determines last block, counter, table and status |
| Collector.StartBlockIsExclusive | go/bbeth/collect/collect.go:178-205 | The configured start block is not collected |
| Collector.ZeroTargetStopsAtFirstBlock | go/bbeth/collect/collect.go:224 | With a target of 0 the first block scanned ends the run |
| Collector.EndBlockOverridesTargetExactlyWhen | go/bbeth/collect/collect.go:84-93 | For every world and head a scan is the one the end block alone gives, if and only if the meter has no target or the first block scanned is the end block or past it |
| LoadInvariants.GridKept | go/bbeth/load/load.go:321-349 | Each step keeps that the points attempted are exactly those the adders have passed |
| LoadInvariants.FreshPoint | go/bbeth/load/load.go:327-335 | A send starts only at a point where none was started before |
| LoadInvariants.LimitKept | go/bbeth/load/load.go:327-330 | Each step keeps that ticks received and waiting do not exceed ticks fired, and that each received tick is one send or one holder |
| LoadInvariants.OutcomesKept | go/bbeth/load/load.go:335-348 | Each step keeps the balance of attempts, successes, failures and calls in flight |
| LoadInvariants.ChainedKept | go/bbeth/load/load.go:335 | Each step keeps accepted nonces contiguous per account, and acceptance behind sending |
| LoadInvariants.ManagedKept | go/bbeth/load/load.go:344-346 | Each step keeps client and chain nonces at most one apart |
| LoadInvariants.ConservationKept | go/bbeth/load/load.go:237-257 | Each step keeps every accepted transaction in exactly one place, pending or one block |
| LoadInvariants.CollectingKept | go/bbeth/collect/collect.go:186-233 | Each step keeps the collector on the reference scan of the chain, while the chain grows |
| LoadInvariants.GroupKept | go/bbeth/load/load.go:239-253 | Each step keeps the WaitGroup counter equal to the goroutines added and not ended |
| LoadInvariants.WaitIsOver | go/bbeth/load/load.go:253 | After Wait no step moves the counter |
| LoadInvariants.StepKeeps | go/bbeth/load/load.go:237-257 | One step from any state of the invariant leads to such a state, for all kinds of step at once |
| LoadInvariants.ReachableKeeps | go/bbeth/load/load.go:237-257 | The invariant holds in every state of every run |
| LoadGrid.AttemptsAtMostTarget | go/bbeth/load/load.go:293-327 | No run ever attempts more than the truncated target |
| LoadGrid.GridCoveredExactly | go/bbeth/load/load.go:321-349 | When the adders have ended, failures or not, every grid point was attempted once, every account once per batch, the run exactly the target |
| LoadGrid.AdderStepsLowerRank | go/bbeth/load/load.go:321-349 | Every adder step lowers a measure of what is left, and no other step raises it |
| LoadGrid.AdderMovesBounded | go/bbeth/load/load.go:287-359 | In any run, however interleaved, the adders take at most six steps per attempt and six per thread |
| LoadEnd.AddersCanFinish | go/bbeth/load/load.go:287-359 | From every reachable state some run takes every started adder to its end, without a step of the main goroutine or the collector |
| LoadEnd.RunCanReturn | go/bbeth/load/load.go:237-257 | From every reachable state some run leads past Wait: no deadlock, and no counter that stays up |
| LoadSuccess.PollIsActedOn | go/bbeth/collect/collect.go:186-232 | In every reachable state in which the collector waits, a head it reads leads through scans that do not fail to the reference scan of that head, and back to waiting |
| LoadSuccess.BeginsAtHead | go/bbeth/collect/collect.go:178-183 | In a load run collection begins at the head read first, or at the configured start block, with nothing counted |
| LoadSuccess.RunCanSucceed | go/bbeth/load/load.go:237-257 | For any threads, accounts, batches, start block and nonce management some run issues the whole target without a failure and passes Wait, its collector complete |
| LoadTheorems.Conservation | go/bbeth/load/load.go:321-349 | In every reachable state attempts are issued, failed or in flight, accepted transactions pending or in one block, and the collector's counter is the total of exactly its blocks |
| LoadTheorems.CollectorIsReferenceScan | go/bbeth/collect/collect.go:177-233 | In every reachable state the collector is where the reference scan of the current chain is |
| LoadTheorems.CompleteExactlyWhenAllMined | go/bbeth/collect/collect.go:224 | With a shared target, no end block and only this load in the blocks: complete if and only if all attempts were accepted and mined in the collected blocks |
| LoadTheorems.DoomedNeverCompletes | go/bbeth/cmd/loadercmd.go:148-150 | Once a send has failed unambiguously, before the collector began or after, or a transaction was mined no later than the start head, no continuation completes |
| LoadTheorems.FailuresAreMissing | go/bbeth/load/load.go:337-341 | Without ambiguous failures, accepted and failed together do not exceed the attempts |
| LoadTheorems.GapFreeNonces | go/bbeth/client/accountset.go:41-44 | No send carries a nonce beyond the one the chain expects, and accepted nonces form a contiguous run per account whatever fails or arrives late; a managed nonce is at most one behind the chain and has moved by the reported successes |
| LoadTheorems.SendsBoundedByTime | go/bbeth/load/load.go:181 | At most floor(t / period) sends have started t ns after the ticker's creation, holders included |
| LoadTheorems.WindowBound | go/bbeth/load/load.go:327-335 | In a window of d ns at most floor(d / period) + 2 ticks are received; at most the holders at its beginning come on top for sends |
| LoadBurst.WindowBoundHoldsExactlyWhen | go/bbeth/load/load.go:327-335 | In every window of d ns of every run at most floor(d / period) + 2 sends start, if and only if there are at most two attempts, or one thread and a period of 1 ns |
| LoadBurst.BurstOfAllThreads | go/bbeth/load/load.go:327-335 | For any number of threads, any period, with or without a collector, there is a run in which all threads start a send at one instant |
| LoadTheorems.ExcessOverTps | go/bbeth/load/load.go:181 | The whole-nanosecond period exceeds the configured rate by a factor below 10^9 / (10^9 - tps) |
| LoadTheorems.WaitGroupCounts | go/bbeth/load/load.go:239-253 | The counter is the live goroutines and the one added but not started, and never negative |
| LoadTheorems.WaitPassesOnlyWhenAllDone | go/bbeth/load/load.go:253 | Run passes Wait only when every adder has ended its grid and the collector has returned, by a stop condition or a failed read |
| LoadTheorems.RunDeliversTheTarget | go/bbeth/load/load.go:237-257 | From the command line on: issued and failed add up to the truncated target, and the time taken respects the rate |
| AdderCode.AccountSet.FillNonces | go/bbeth/client/accountset.go:58-96 | With managed nonces every account starts from its pending nonce, or the first failed request is an error |
| AdderCode.AccountSet.IncNonce | go/bbeth/client/accountset.go:41-44 | Moves one nonce on by one, in place, and no other |
| AdderCode.Run | go/bbeth/load/load.go:287-359 | The calls are the walk of the grid in order, each with the account's initial nonce moved on by its earlier successes; final nonces and the issued counter count successes only |
| AdderCode.PointAfterIs | go/bbeth/load/load.go:321-327 | Call k of a thread is for account k mod accounts in batch k / accounts |
| AdderCode.AdderStandsWhereItsCodeDoes | go/bbeth/load/load.go:321-349 | At every point of every run each adder is where the code is for the outcomes its calls had: grid point, successes per account, issued count, and with managed nonces all nonces, also that of the call it is in |
| AdderCode.FinishedAsItsCode | go/bbeth/load/load.go:321-349 | An adder that has ended leaves the issued count and the managed nonces that the code leaves for its outcomes |
| AdderCode.EveryAccountOncePerBatch | go/bbeth/load/load.go:298-300 | In B batches every account is called exactly B times |
| Nodes.ClientsFromEthEndpoint | go/bbeth/load/load.go:381-433 | The port of every connection, and with several nodes a balanced share for each: T / n, and one more for the first T mod n |
| Nodes.ClientsFromStaticNodes | go/bbeth/load/load.go:467-522 | Errors exactly when nodes exceed the list, never takes an index out of range unless nodes are negative and the list empty, and is balanced |
| Nodes.BalancedLoad | go/bbeth/load/load.go:428-433 | Round robin gives node j exactly T / n + (1 if j < T mod n) |
| Nodes.EvenLoad | go/bbeth/load/load.go:75-78 | Threads = nodes * clients gives every node exactly that many clients |
| Rpc.Lookup | go/bbeth/client/ethrpc.go:62-69 | The table lookup, cut off at its end, in closed form |
| Rpc.BaseGrows | go/bbeth/client/ethrpc.go:62-69 | A later failure never has the smaller base; steps come in pairs that double, up to 10 seconds for good |
| Rpc.GetBlockByNumber | go/bbeth/client/ethrpc.go:18-37 | Number of calls, result and time slept for every limit: first success, cancellation, or the last error after exactly the retries |
| Rpc.CheckReceipt | go/bbeth/client/ethrpc.go:39-59 | True exactly when the first receipt found within the retries has status 1 |
| Rpc.BackoffBetween | go/bbeth/client/ethrpc.go:64-76 | The total sleep lies between two extremes for every jitter, and both are reached |
| Rpc.BackoffBounds | go/bbeth/client/ethrpc.go:61-76 | Over k >= 15 failures it lies between 37500 + 5000 (k - 15) and 112486 + 14999 (k - 15) ms |
| Stats.Blocks.CheckRange | jupyter-support/bbplots/db.py:81-96 | Clamps to the table's bounds without changing which rows are meant; a last block of 0 or less is open; an empty table is an error |
| Stats.Blocks.GetCommonStats | jupyter-support/bbplots/db.py:44-63 | Over exactly the rows asked for, by default all: the sum, maxima that are attained, the average over all these blocks and over those with transactions, and the number of the latter; nothing but 0 without rows |
| Stats.CounterAndTableAgree | go/bbeth/collect/collect.go:215-224 | For any table, failing insert and way of ending: existing rows are kept, and stored plus lost equals before plus counted |
| Stats.AgreeExactlyWhenNothingLost | go/bbeth/collect/collect.go:216-218 | Starting from a total of 0, table and counter agree if and only if no block with transactions failed to be stored |
| Stats.EmptyTableAgrees | jupyter-support/bbplots/db.py:44-63 | From an empty table the keys are the contiguous collected range, and the default sum is the collector's count |
| BlockFrame.Frame.AddBlockTime | jupyter-support/bbplots/blockframe.py:23-32 | Scaled timestamps and block times with rows 0 and 1 undefined; a frame shorter than two rows gains a row of NaN in every column |
| BlockFrame.Frame.AddWindow | jupyter-support/bbplots/blockframe.py:10-18 | Adds one column; over increasing timestamps each of its cells has the telescoped form |
| BlockFrame.RateTelescopes | jupyter-support/bbplots/blockframe.py:10-18 | The window-w rate is defined exactly from row w + 1 on, and is the field's total over ts[n] - ts[n-w] |
| BlockFrame.RateOfAnyTimes | jupyter-support/bbplots/blockframe.py:10-18 | For timestamps in any order: the same quotient, infinite when no time has passed, and NaN when there is no total either |
| BlockFrame.RollingMoves | jupyter-support/bbplots/blockframe.py:12-16 | A rolling sum is defined from the first full window on, and moves on by the cell that enters and the one that leaves |
| BlockFrame.RateBetweenExtremes | jupyter-support/bbplots/blockframe.py:34-39 | It lies within any bounds of the single-block rates of its window |
| BlockFrame.RateScales | jupyter-support/bbplots/blockframe.py:27-29 | In the frame with timestamps divided by a time scale every rate is multiplied by it, and undefined ones stay undefined |
| Shell.QuotesExactlyWhen | benchjson.py:208 | A string is printed without quotes if and only if it is not empty and has only the characters shlex takes for safe, all listed |
| Shell.ReadQuoted | benchjson.py:208 | For every string, quoting and quote removal give it back, inside a longer word |
| Shell.SqueezeQuoted | tusk.yml:508 | For every string, squeezing blanks commutes with quoting |
| Shell.JoinOfFields | tusk.yml:508 | Field splitting and the joining by eval squeeze blanks, and drop them at the ends |
| Shell.SqueezeKeepsExactly | tusk.yml:508 | Squeezing keeps a string if and only if its blanks are isolated spaces |
| ConfigStore.ShellExport | benchjson.py:202-212 | Prints one line per entry, in order, truth values normalised |
| ConfigStore.NamesOfKey | benchjson.py:212 | Character by character: BBAKE_, then the key with each letter at its place in the capital alphabet, hyphens as underscores where it is exported and as they are where update looks it up; nothing else changes |
| ConfigStore.TextIs | benchjson.py:203-206 | "true" is printed exactly for true, "True" and "true", "false" likewise, and every other string as it is |
| ConfigStore.ExportReadsBack | benchjson.py:192-212 | For any values, running the printed script assigns every key's variable its value and touches nothing else |
| ConfigStore.QuotedEvalReadsBack | benchjson.py:192-212 | The same for eval "$(...)", where the substitution drops the last newline |
| ConfigStore.ScriptRecoversEveryValue | benchjson.py:192-212 | With distinct variables every value is recovered: a variable is true or false exactly for a truth value, and else the very string |
| ConfigStore.UnquotedEvalSqueezes | tusk.yml:508 | For any values, the unquoted eval is one export command that assigns every value squeezed |
| ConfigStore.UnquotedEvalRecoversExactly | tusk.yml:508 | It recovers a value if and only if its blanks are isolated spaces |
| ConfigUpdate.CmdUpdate | benchjson.py:28-36 | A listed key takes its variable's value when that is set and not empty; every other entry stays, none is removed |
| ConfigUpdate.PassNormalises | tusk.yml:574-601 | However the exports are run, update gives each listed key without a hyphen its text as the shell saw it (squeezed by an unquoted eval) and changes no other; the keys stay the same if and only if no listed name aliases another key |
| ConfigUpdate.PassKeepsTextsExactlyWhen | tusk.yml:574-601 | Export and update change only the spelling of truth values if and only if the eval is quoted, or the texts written back have isolated spaces for blanks |
| ConfigUpdate.UnquotedPassRewrites | tusk.yml:574-601 | A concrete value that export, unquoted eval and update change |
| ConfigUpdate.WritesBackExactlyWhen | benchjson.py:14-36 | In a shell's environment a listed variable that is set and not empty is written back if and only if its key has no hyphen or had the value already |
| ConfigUpdate.HyphenIsNotWrittenBack | benchjson.py:30 | A concrete override that is lost |
| ConfigUpdate.UnderscoreAliasesHyphen | benchjson.py:30 | A concrete alias that adds a key, in every form |
| ConfigUpdate.SecondPassChangesNothing | benchjson.py:28-36 | However the exports are run, a second pass changes nothing, aliases or not, in whatever order entries are listed |
| ConfigUpdate.CmdNewConfig | benchjson.py:84-167 | Every key but consensus, nodesdir and name has its variable's value if listed and set, even to empty, else that of the last profile defining it; pyenv is the profile's path, or else the variable's or "env", before it is layered; consensus and nodesdir are the arguments; name is its layered value or else consensus and maxnodes, and only a missing maxnodes then fails |
| ConfigUpdate.LayeredIs | benchjson.py:110-160 | The layered value in full: a listed variable that is set, with truth values spelled for the shell; else that of the last profile; for pyenv its path, or else that of its variable or "env" |
| ConfigUpdate.LastDefinedIs | benchjson.py:110-116 | The layered value is that of the profile that defines the key and has no later one that does |
| ConfigUpdate.UndefinedExactlyWhen | benchjson.py:110-116 | A key has no profile value if and only if no existing profile defines it |

## Left out

- JSON-RPC, HTTP, URL parsing, DNS and SQLite itself: a call gives a value or fails, a table is a map with unique keys.
- Keys, signing, contract deployment and execution: accounts are distinct, and a node accepts a transaction with the nonce it expects or does not.
- Receipt checking at the end of a batch: it only prints, and with no first success it would read a nil transaction.
- The collector's own ticker and the retries of its fetches, in the transition system: a poll may happen at any time, and a fetch succeeds or fails.
- Chain re-organisations that change collected blocks: the code does not deal with them. Blocks are append-only; a block asked for by number has that number.
- Start blocks below -1 and heads beyond int64 in the transition system; the collector method takes any number.
- Negative retries in `GetBlockByNumber` give a nil block without an error, which the collector would dereference; the loop is modelled (`NoCall`), the crash is not.
- A retry limit of 0 may loop forever: the method runs against a finite list of answers and reports that it is still trying.
- 64-bit overflow of counters and products in Go; integers are unbounded except where the deltas convert to int64.
- Late ticks of the Go runtime, rounding in pandas and a rolling window of 0 rows.
- Progress bars beyond plain counters, cobra, viper and flags, plotting, and all shell, compose and k8s plumbing.
- `--nodesdir` in new-config, which reads a local before it is assigned, the file names of the profiles, a pyenv that is no string, and JSON values that are neither strings nor booleans.
- Keys with characters other than letters, digits, underscores and hyphens: they do not name shell variables. Upper-casing is ASCII.
- NUL characters in values, which command substitution drops and no environment holds.
- ConfigStore.UnquotedEvalSqueezes: assumes pathname expansion is off; with it on, a printed value may be replaced by file names.
- LoadTheorems.CompleteExactlyWhenAllMined: assumes the initial head could be read, and that collected blocks carry no transactions of others, as foreign ones would be counted too.
