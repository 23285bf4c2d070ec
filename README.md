# chaosindy decision logic in Dafny

chaosindy is a chaos-engineering toolkit for Hyperledger Indy validator pools.
A chaostoolkit experiment calls its *actions* to inject faults and its
*probes* to observe the pool. The faults are: stopping, killing and starting
nodes, blocking and unblocking node ports with iptables, and stopping the
primary and its backup primaries. The probes collect each node's validator
info, detect the primary by majority vote, and check node modes and catch-up
counts. Between calls, an experiment keeps its state as small JSON files in a
per-experiment temporary directory. This project models what these operations
decide, and proves what they promise:

- which nodes are started or stopped, and in what order;
- what is written to the state directory and what is read back from it;
- when an operation reports success, and when it raises.

The command-line runner `run.py` is modelled too: its argument converters and
its experiment selection.

The world outside the program is given to each operation as parameters:

- **Remote commands.** `Remote` gives a command's return code on a host.
  `Exec` also says whether the SSH call raised.
- **Node replies.** The validator-info replies of the nodes, and the lines
  printed by `indy-cli`.
- **State directory.** A map `Store` from file name to a parsed JSON
  document, or to `Corrupt` for a file `json.load` rejects.
- **Primary polling.** A poll function gives the primary seen at each check.
- **The genesis file.** The pool transactions, already parsed into
  `NodeData` records.

The operations follow the cited source files as they are written. For
example, the view-change polling is the loop inside
start_stopped_primary_after_view_change; there is no separate
wait_for_view_change function. Also, start_stopped_primary starts the recorded
backups whatever its `start_backup_primaries` argument says.

Every operation returns its trace of remote calls. A contract can therefore
say which commands ran, and in what order.

Modules follow the source files:

| module | models |
|---|---|
| `NodeActions` | `chaosindy/actions/node.py` |
| `PrimaryActions` | `chaosindy/actions/primary.py` |
| `ValidatorInfo` | `chaosindy/probes/validator_info.py` |
| `EnsureNodesUp` | `chaosindy/actions/ensure_nodes_up.py` |
| `KillRandomNodes` | `chaosindy/actions/kill_random_nodes.py` |
| `AllNodesUp` | `chaosindy/probes/all_nodes_up.py` |
| `RunCli` | `run.py` |

The shared pieces are:

- `Remote`: remote calls and their traces.
- `Draw`: the random draw-until-enough loop.
- `StateStore`: JSON documents and the state directory.
- `Strings`: Python's string operations and `int()`.
- `Common`: `Result`, Python's exception kinds, and sequence helpers.

## Model

| member | source | states |
|---|---|---|
| NodeActions.GetAliases | chaosindy/actions/node.py:35-43 | the aliases of the genesis transactions, one per transaction, in file order |
| NodeActions.GetInfoByNodeName | chaosindy/actions/node.py:23-32 | None exactly when no transaction carries the alias; otherwise the first transaction with that alias |
| NodeActions.UnblockIsBlockWithDelete | chaosindy/actions/node.py:89-103 | the unblock rule is the block rule with its `-A` (append) replaced by `-D` (delete), for every port text |
| NodeActions.StartNodes | chaosindy/actions/node.py:140-155 | starts every listed node in order; succeeds exactly when every start returns 0 |
| NodeActions.StopNodes | chaosindy/actions/node.py:158-174 | stops every listed node in order; succeeds exactly when every stop returns 0 |
| NodeActions.StartAllButByNodeName | chaosindy/actions/node.py:177-189 | an unknown alias fails without any call; otherwise starts every other genesis node in order, and succeeds exactly when all of those starts succeed |
| NodeActions.RemoveFirstKeepsOthers | chaosindy/actions/node.py:183-187 | removing the excluded alias keeps every other alias and drops one copy of it |
| NodeActions.AllNodesUp | chaosindy/actions/node.py:192-199 | starts every genesis node; true exactly when every start returns 0 |
| NodeActions.RunUntilRaised | chaosindy/actions/node.py:208-218 | one call per node, in order, whatever each exits with; without best effort the first call that raises ends the loop with false right after it; true exactly under best effort or when no call raises |
| NodeActions.UnblockNodePortAllNodes | chaosindy/actions/node.py:202-218 | sends every genesis node the unblock of its own node port, in genesis order; true exactly under best effort or when no unblock raises; otherwise stops at the first one that raised |
| NodeActions.GetRandomNodes | chaosindy/actions/node.py:221-238 | min(count, pool size) aliases (none for count <= 0), drawn from the genesis without repeats |
| NodeActions.BlockEach | chaosindy/actions/node.py:247-254 | the block loop: one call per selected node; the count and the recorded ports are exactly the nodes whose block succeeded |
| NodeActions.BlockNodePortRandom | chaosindy/actions/node.py:241-265 | draws the nodes and blocks each one's node port; writes exactly the blocked nodes' ports to `block_node_port_random` and changes no other file; true exactly when at least `count` blocks succeeded |
| NodeActions.UnblockEach | chaosindy/actions/node.py:290-301 | visits every recorded node once; counts the unblocks that returned 0; keeps exactly the nodes whose unblock failed without raising |
| NodeActions.UnblockNodePortRandom | chaosindy/actions/node.py:268-313 | a missing or unreadable record is true under best effort and raises otherwise; otherwise, without best effort, any node left blocked gives false and nothing is written; everything else rewrites the record with the still-blocked nodes and gives true |
| NodeActions.BlockThenUnblockCommand | chaosindy/actions/node.py:250-251 | a port recorded by the random block turns back into the same port text, so the unblock deletes exactly the rule the block appended |
| NodeActions.KillRandomNodes | chaosindy/actions/node.py:316-331 | stops min(count, pool size) distinct random nodes; true exactly when at least `count` stops returned 0 |
| Remote.RunEach | chaosindy/actions/node.py:140-155 | one call per host in order; the success count is the number of hosts whose call returned 0 |
| Draw.DrawUntil | chaosindy/actions/ensure_nodes_up.py:21-31 | draws without repeats from the pool until `target` hits or the pool is empty; no proper prefix of the draw already had `target` hits |
| Draw.DrawAllHitLength | chaosindy/actions/node.py:228-235 | when every draw counts as a hit, the draw has exactly min(target, pool size) names |
| Draw.TargetBeyondPool | chaosindy/actions/ensure_nodes_up.py:34-37 | a target larger than the pool is never reached |
| Draw.AllHitReachTarget | chaosindy/actions/ensure_nodes_up.py:24-37 | when every node is a hit, the target is reached exactly when it is at most the pool size |
| EnsureNodesUp.EnsureNodesUp | chaosindy/actions/ensure_nodes_up.py:21-37 | starts random distinct nodes until `count` starts succeeded; true exactly when it got there; no start is issued after the count is reached |
| EnsureNodesUp.CountBeyondGenesis | chaosindy/actions/ensure_nodes_up.py:34-37 | asking for more nodes than the genesis has always fails |
| EnsureNodesUp.AllStart | chaosindy/actions/ensure_nodes_up.py:24-37 | if every start succeeds, the action succeeds exactly when count <= number of nodes |
| KillRandomNodes.KillRandomNodes | chaosindy/actions/kill_random_nodes.py:21-37 | stops random distinct nodes until `count` stops ended with 0 or 3; true exactly when it got there |
| KillRandomNodes.AllStop | chaosindy/actions/kill_random_nodes.py:24-37 | if every stop ends with 0 or 3, the action succeeds exactly when count <= number of nodes |
| AllNodesUp.AllNodesUp | chaosindy/probes/all_nodes_up.py:24-35 | checks every node's status in order; true exactly when every status check returns 0 |
| PrimaryActions.ReadPrimary | chaosindy/actions/primary.py:13-18 | a missing or undecodable `primaries` file raises, a document that is not an object raises AttributeError; an object gives its `current_primary` string, or None when that key is absent or null |
| PrimaryActions.ReadDetectedPrimary | chaosindy/actions/primary.py:13-16 | reading back the document that primary detection writes gives the elected primary, or None |
| PrimaryActions.GetPrimary | chaosindy/actions/primary.py:8-18 | optionally runs detection first, which changes no file but `primaries`; then returns its `current_primary`; with detection and no participant's snapshot failing (a snapshot that loads but lacks the `Primary` or `Mode` field, or holds a truthy primary that is not a string), that is the strict-majority primary, or None when there is none |
| PrimaryActions.ReadStop | chaosindy/actions/primary.py:153-167 | no `stopped_primary` file means no record; a record is only returned for a non-empty primary name |
| PrimaryActions.StopRecordRoundTrip | chaosindy/actions/primary.py:44-49 | the record stop_primary writes reads back as that primary, with no stopped backups |
| PrimaryActions.BackupsRecordRoundTrip | chaosindy/actions/primary.py:217-223 | the record the f-backup stop writes reads back as the same primary and the same backups, in order |
| PrimaryActions.StopPrimary | chaosindy/actions/primary.py:42-50 | no primary gives false with no call; otherwise records the primary in `stopped_primary`, then stops exactly that node, and returns the stop's result |
| PrimaryActions.StartOrderAllStarted | chaosindy/actions/primary.py:124-133 | when every backup starts, the calls are the backups in order, then the primary |
| PrimaryActions.StartOrderAborts | chaosindy/actions/primary.py:124-131 | the first backup that fails to start ends the sequence; the primary is not started |
| PrimaryActions.StartBackupsThenPrimary | chaosindy/actions/primary.py:124-133 | issues the start order above; true exactly when every backup and then the primary started |
| PrimaryActions.WatchSpec | chaosindy/actions/primary.py:105-119 | the poll count returned is the first check showing a named primary other than the stopped one, with all earlier checks showing no change; or it equals the budget when no check did |
| PrimaryActions.AwaitViewChange | chaosindy/actions/primary.py:105-119 | the polling loop computes exactly the watch above |
| PrimaryActions.StartStoppedPrimaryAfterViewChange | chaosindy/actions/primary.py:88-134 | a missing record gives false; a record starts nothing until a view change is seen within the budget, then starts the backups (if asked) and the primary in the aborting order |
| PrimaryActions.StartStoppedPrimaryAsWritten | chaosindy/actions/primary.py:153-179 | the source's loop: every backup is started, and only the last backup's result is looked at before starting the primary |
| PrimaryActions.AsWrittenStartsPrimaryAfterFailedBackup | chaosindy/actions/primary.py:171-178 | with backups Node2, Node3 and a failing Node2, the as-written loop still starts Node3 and then the primary |
| PrimaryActions.StartStoppedPrimary | chaosindy/actions/primary.py:153-179 | as above, but a failed backup start ends the operation before the primary is started |
| PrimaryActions.StartAllButPrimary | chaosindy/actions/primary.py:181-186 | no primary gives false with no call; otherwise starts every genesis node except the primary |
| PrimaryActions.ChooseF | chaosindy/actions/primary.py:197-199 | a given f is kept; otherwise f is read from the primary's validator info |
| PrimaryActions.ChooseFDefault | chaosindy/actions/primary.py:197-199 | the default f is min(Count_of_replicas, f_value) |
| PrimaryActions.StopBackups | chaosindy/actions/primary.py:201-210 | stops the primaries of replicas 1 .. f-1 in order (none when f <= 1); succeeds exactly when every replica it reads can be read; a replica lookup that fails ends the loop with that error |
| PrimaryActions.StopReplicasThenPrimary | chaosindy/actions/primary.py:201-215 | once f is chosen: the backups are stopped, the next primary is read from replica f (replica 2 when f <= 1), and the primary is stopped; the next primary is read exactly when every replica read can be read, and otherwise the first unreadable replica's error is returned |
| PrimaryActions.StopFBackupPrimariesBeforePrimary | chaosindy/actions/primary.py:188-224 | with a primary: stops f-1 backups, then the primary; records primary, backups and next primary; never returns true; once f is chosen, returns false exactly when every replica it reads (1 .. f-1 and the next primary's) can be read, and otherwise raises the error of the first one that cannot, after the stops issued before it and with nothing written |
| ValidatorInfo.FetchFromNodes | chaosindy/probes/validator_info.py:16-51 | one request per node; writes the snapshot file of each node that answered with 0; true exactly when every node answered with 0 |
| ValidatorInfo.FetchedFiles | chaosindy/probes/validator_info.py:35-49 | after the fetch, each answering node's snapshot holds its reply, and every other file is unchanged |
| ValidatorInfo.DemuxCliOutput | chaosindy/probes/validator_info.py:220-233 | every response header line writes the line after it to that node's snapshot file, in order |
| ValidatorInfo.DemuxNoResponse | chaosindy/probes/validator_info.py:222-232 | output without a response header writes nothing |
| ValidatorInfo.ResponseLineName | chaosindy/probes/validator_info.py:224-225 | the header printed for a node is recognised, and gives back that node's name |
| ValidatorInfo.DemuxTranscript | chaosindy/probes/validator_info.py:220-232 | demultiplexing the transcript of (node, reply) pairs gives back exactly those pairs |
| ValidatorInfo.GetValidatorInfo | chaosindy/probes/validator_info.py:270-287 | source 1 fetches from the nodes, source 2 demultiplexes the CLI output, any other source raises AttributeError |
| ValidatorInfo.ReadReport | chaosindy/probes/validator_info.py:336-360 | a missing or unreadable snapshot reports "Unknown"; a loaded one fails exactly when it lacks the `Primary` or `Mode` field or holds a truthy primary that is not a string |
| ValidatorInfo.ReportOfSnapshot | chaosindy/probes/validator_info.py:341-348 | a snapshot naming `name:instance` reports `name`; an empty primary reports None |
| ValidatorInfo.BothLayouts | chaosindy/probes/validator_info.py:341-349 | a snapshot wrapped in `data` (indy-cli) reads like the same snapshot unwrapped (node script), for both the primary and the mode |
| ValidatorInfo.TallyReports | chaosindy/probes/validator_info.py:320-376 | fails exactly when some participant's snapshot is one that loads but lacks the `Primary` or `Mode` field, or holds a truthy primary that is not a string (a missing or corrupt snapshot is read as "Unknown" and does not fail); otherwise the count is the number of participants, and each candidate's list holds exactly the participants naming it, once each, in genesis order (`VoterList`) |
| ValidatorInfo.RecordVote | chaosindy/probes/validator_info.py:366-373 | appends the alias to the end of the candidate's list unless it is already there; every other list is unchanged |
| ValidatorInfo.UniqueMajority | chaosindy/probes/validator_info.py:386-393 | the votes for two different candidates add up to at most the participant count |
| ValidatorInfo.AtMostOnePrimary | chaosindy/probes/validator_info.py:386-393 | at most one candidate has a strict majority |
| ValidatorInfo.Reconcile | chaosindy/probes/validator_info.py:383-394 | the current primary is the validator named by more than half of the participants, if any; `reported_primaries` counts the validators named at least once |
| ValidatorInfo.DetectPrimary | chaosindy/probes/validator_info.py:290-406 | false exactly when some participant's snapshot is one that loads but lacks the `Primary` or `Mode` field, or holds a truthy primary that is not a string (a missing or corrupt snapshot counts as "Unknown"), and then writes nothing; otherwise true, and writes `primaries` with the strict-majority primary and each candidate's voters in genesis order |
| ValidatorInfo.ModeOf | chaosindy/probes/validator_info.py:440-454 | a missing snapshot has mode "Unknown"; an unreadable one is an error |
| ValidatorInfo.DetectMode | chaosindy/probes/validator_info.py:431-470 | true exactly when every node's mode could be read; only then writes the `mode` file |
| ValidatorInfo.CountMode | chaosindy/probes/validator_info.py:491-495 | counts exactly the nodes whose recorded mode equals the requested one |
| ValidatorInfo.NodesInMode | chaosindy/probes/validator_info.py:473-500 | true exactly when the modes could be read and exactly `count` nodes are in the mode |
| ValidatorInfo.RangeOutcome | chaosindy/probes/validator_info.py:557-564 | a node matches exactly when its status is `synced`, its count is a number, both bounds of the range text parse, and low <= count <= high; any other status never matches; the outcome is never a bare False, though a bound that does not parse or a count that is not a number raises ValueError or TypeError, which ends the scan |
| ValidatorInfo.ResurrectedNodesAreCaughtUp | chaosindy/probes/validator_info.py:532-571 | the scan computes the catch-up verdict over the killed nodes, in order |
| ValidatorInfo.CaughtUpIffAllMatched | chaosindy/probes/validator_info.py:559-571 | the verdict is true exactly when every killed node is synced with a count inside the range |
| ValidatorInfo.MissingSnapshotNeverMatches | chaosindy/probes/validator_info.py:543-548 | a node without a snapshot never counts as caught up |
| ValidatorInfo.RangeBounds | chaosindy/probes/validator_info.py:557-561 | the text `lo to hi` gives lower bound lo and upper bound hi |
| ValidatorInfo.SyncedInRange | chaosindy/probes/validator_info.py:559-561 | a synced node with count n matches `lo to hi` exactly when lo <= n <= hi |
| ValidatorInfo.SyncedExactly | chaosindy/probes/validator_info.py:557-561 | a single number c as the range matches exactly the count c |
| Strings.ParseIntRoundTrip | chaosindy/probes/validator_info.py:560-561 | `int(str(n)) == n` for every integer |
| RunCli.Str2Bool | run.py:35-42 | the yes-words give True, the no-words give False (any case); anything else raises ArgumentTypeError |
| RunCli.Str2BoolIgnoresCase | run.py:35-42 | a word and its lower-case form convert alike |
| RunCli.LogLevel | run.py:58-64 | a level name in any case gives its numeric level; anything else raises ArgumentTypeError |
| RunCli.LogLevelIgnoresCase | run.py:58-64 | a level name and its lower-case form convert alike |
| RunCli.LogLevelNames | run.py:441-451 | every level name converts to its own level; `info`, the name of the default level `logging.INFO`, is 20 |
| RunCli.DefaultExperiments | run.py:312-320 | exactly the names `e` with a `run-e` script, each once, with no parameters |
| RunCli.InvalidExperiments | run.py:66-100 | the given names that are not default experiments, in order; empty exactly when all are defaults |
| RunCli.InvalidItems | run.py:77-79 | over a JSON list: a list or object item raises TypeError; otherwise the items that are not default names, in order; none exactly when every item is a default name as a string |
| RunCli.ExperimentDict | run.py:66-85 | non-JSON text raises ArgumentTypeError; a number, boolean or null raises TypeError; an object (by its keys), a list (by its items) or a string (by its characters) is accepted exactly when every name is a default experiment, and is returned as parsed; otherwise ArgumentTypeError |
| RunCli.ExperimentExcludeList | run.py:88-100 | the comma-separated names, accepted exactly when all are default experiments |
| RunCli.ExcludeAllDefaults | run.py:465-472 | the comma-joined default names split back into those names, so that exclude list is accepted |
| RunCli.RunExperiments | run.py:323-342 | works through the given experiments, or the defaults when none are given (a non-empty list or string raises AttributeError at `items()`); runs the kept ones in order until the first whose parameters raise: AttributeError for a value that is not an object, ValueError for a key that does not unpack into two names; otherwise every kept experiment runs |
| RunCli.ExcludeEverything | run.py:500-517 | excluding every planned experiment runs none |
| RunCli.CleanupOnExit | run.py:386-389 | the job directory is cleaned up only when cleanup was asked for and an S3 bucket is given |

## Left out

- generate_load and generate_load_parallel (chaosindy/actions/node.py:48-69): they only run a remote load command and check its return code.
- The ensure_nodes_up in chaosindy/actions/node.py:334-358: it calls an undefined `start_node` (line 350). The loop it would run is modelled as EnsureNodesUp.EnsureNodesUp from chaosindy/actions/ensure_nodes_up.py.
- Reading and parsing the genesis file: the transactions are an input (`NodeData`). `ensure_nodes_up.py` reads the alias at a different JSON path; its aliases are an input too.
- SSH and Fabric connections, timeouts, `indy-cli` batch files and the `subprocess` calls are not modelled: their results are inputs (`Remote`, `Exec`, the replies, the CLI's output lines).
- The serial and parallel fetches of validator info write the same files. Both are modelled by ValidatorInfo.FetchFromNodes; threads are not modelled.
- get_validator_info_from_sdk is not modelled: it is not reachable, because `ValidatorInfoSource.SDK` does not exist.
- ValidatorInfo.ResurrectedNodesAreCaughtUp: the killed-node list is an input. When loading it fails, the source names an undefined `best_effort` (chaosindy/probes/validator_info.py:527), which raises NameError; that path is not modelled.
- The probes' own first step, a fresh get_validator_info call whose result they ignore, is not part of DetectPrimary, DetectMode or ResurrectedNodesAreCaughtUp. Those work on the state directory after that fetch. The list of current validators is an input, from ledger_interaction, which is not part of this model.
- ValidatorInfo.DetectPrimary: a node, validator or reported primary named `node_count`, `current_primary`, `reported_primaries` or `null` shares a key with the tally's own entries (`null` is the key `json.dumps` gives the entry of an empty report). That case is reported as Unmodelled rather than modelling the collision.
- ValidatorInfo.DetectPrimary: the test `tried_to_query < count_participating` (line 400) is never true. Every participant either adds one to `tried_to_query` or ends the probe, so the model has no such branch.
- JSON text and key order are not modelled. Documents are JSON values, and the order in which a dictionary's keys are visited is left open (the `order` of NodeActions.UnblockEach).
- JSON numbers are integers; floating-point counts and ports are not modelled.
- Counts are integers in EnsureNodesUp.EnsureNodesUp, KillRandomNodes.KillRandomNodes, NodeActions.GetRandomNodes, NodeActions.BlockNodePortRandom, NodeActions.KillRandomNodes and ValidatorInfo.NodesInMode. The source applies `int()` to the count, which also accepts a numeral string and raises ValueError on other text; `int()` of a string count is not modelled.
- A remote call that raises is not modelled in NodeActions.StartNodes, NodeActions.StopNodes, NodeActions.StartAllButByNodeName, NodeActions.AllNodesUp, NodeActions.BlockEach, NodeActions.BlockNodePortRandom, NodeActions.KillRandomNodes, EnsureNodesUp.EnsureNodesUp, KillRandomNodes.KillRandomNodes, AllNodesUp.AllNodesUp, ValidatorInfo.FetchFromNodes, PrimaryActions.StopPrimary, PrimaryActions.StartBackupsThenPrimary, PrimaryActions.StopBackups and PrimaryActions.StopFBackupPrimariesBeforePrimary. Their `Remote` gives only exit codes. In the source such an exception propagates (apply_iptables_rule_by_node_name re-raises it, chaosindy/actions/node.py:82-84, and the start and stop helpers have no handler). The model does not capture the partial state it leaves: for example, block_node_port_random then writes no `block_node_port_random` record, and the serial fetch keeps only the snapshots written before the raise. Raises are modelled only where the source catches them: NodeActions.RunUntilRaised and NodeActions.UnblockEach, through `Exec`.
- Strings.ParseInt: only ASCII digits, an optional sign and surrounding whitespace. Python's `int()` also accepts `_` between digits and non-ASCII digits; the model reads those as not a number.
- Strings.Lower: ASCII case folding only.
- NodeActions.UnblockNodePortRandom: a recorded port that is neither an integer nor a string is reported as Unmodelled (`str()` of other JSON values is not modelled).
- PrimaryActions.StartStoppedPrimary, PrimaryActions.StartStoppedPrimaryAfterViewChange and PrimaryActions.StartStoppedPrimaryAsWritten: a `stopped_backup_primaries` value that is truthy but not a list of strings is reported as Unmodelled.
- PrimaryActions.ReadStop and PrimaryActions.ReadPrimary: a truthy `stopped_primary` or `current_primary` value that is not a string is reported as Unmodelled. The source passes such a value on to the comparison and to start_by_node_name (chaosindy/actions/primary.py:99-133).
- PrimaryActions.StartStoppedPrimaryAfterViewChange: each poll calls get_primary with detection (chaosindy/actions/primary.py:107-109), which rewrites `primaries` every time. The polls are an input (`poll`), and the operation returns no new state, so these rewrites are not modelled.
- PrimaryActions.StopFBackupPrimariesBeforePrimary: `f` is an integer, and `0` stands for both "not given" (None) and 0, as the source's `if not f` treats them alike. Replica counts that are not integers are reported as Unmodelled. The trace and the new state are separate results, so the model does not order the file write against the stops.
- PrimaryActions.GetPrimary: the detection it may run is modelled on the state directory as given; the fetch inside detect_primary is not repeated there.
- `random.choice` is a nondeterministic pick. The draws are specified for every possible pick (Draw.DrawUntil).
- ValidatorInfo.DemuxCliOutput requires a header line never to be the last line (`ScanInBounds`); the source would raise IndexError there.
- Sleeping between polls, logging, `reset_pool`, S3 upload, notifications and job-directory creation are not modelled.
- RunCli.RunExperiments: of run_experiment only the two uses of the parameters that can raise are modelled (`parameters.keys()` at run.py:238-239 and the unpacking loop at run.py:270). Reading the pool's `clients` file, starting the script and writing `run.out` and `report` are not, and each run is assumed to return. `ran` is therefore the experiments the loop would start, not their outcomes.
- `argparse` itself is not modelled. The converters are modelled as functions from the argument text.
- These modules are not part of this model: chaosindy/probes/node.py, chaosindy/probes/primary.py, chaosindy/ledger_interaction.py, chaosindy/actions/validator_info.py and chaosindy/execute/execute.py.

## Findings

| source | as written | input that shows it | evidently intended | confidence | as-written member | corrected member |
|---|---|---|---|---|---|---|
| chaosindy/actions/primary.py:171-177 | `if not started` is outside the loop over the stopped backups. Only the last backup's start result is looked at, and a failed start of an earlier backup does not stop the primary from being started. | A `stopped_primary` record with backups Node2, Node3, where starting Node2 fails: Node3 and then the primary are still started. | Stop at the first backup that fails to start, as start_stopped_primary_after_view_change does (lines 125-131). | medium, not executed | PrimaryActions.AsWrittenStartsPrimaryAfterFailedBackup | PrimaryActions.StartStoppedPrimary |
